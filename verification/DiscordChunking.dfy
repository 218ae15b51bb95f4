/** Embed normalisation and the order-preserving packer of discord-chunking.ts. */
module DiscordChunking {
  import opened JsStrings

  const MAX_EMBEDS_PER_MESSAGE := 10
  const MAX_TOTAL_CHARS_PER_MESSAGE := 6000
  const TITLE_MAX := 256
  const DESCRIPTION_MAX := 4096
  const FIELD_NAME_MAX := 256
  const FIELD_VALUE_MAX := 1024
  const FOOTER_TEXT_MAX := 2048
  const AUTHOR_NAME_MAX := 256
  const MAX_FIELDS_PER_EMBED := 25
  const ELLIPSIS: CodeUnit := 0x2026

  datatype Field = Field(name: Option<JsString>, value: Option<JsString>, inlined: Option<bool>)

  datatype Footer = Footer(text: Option<JsString>, iconUrl: Option<JsString>)

  datatype Author = Author(name: Option<JsString>, iconUrl: Option<JsString>, url: Option<JsString>)

  datatype Embed = Embed(
    title: Option<JsString>,
    description: Option<JsString>,
    color: Option<int>,
    url: Option<JsString>,
    fields: Option<seq<Field>>,
    footer: Option<Footer>,
    author: Option<Author>)

  // ---------- normalisation ----------

  function Truncate(s: JsString, max: int): (t: JsString)
    ensures |t| == (if |s| <= max then |s| else if max < 0 then 0 else max)
    ensures |s| <= max ==> t == s
    ensures 0 < max < |s| ==> t[..max - 1] <= s && t[max - 1] == ELLIPSIS
  {
    if max <= 0 then []
    else if |s| <= max then s
    else s[..max - 1] + [ELLIPSIS]
  }

  function TruncateOption(s: Option<JsString>, max: int): Option<JsString> {
    match s
    case None => None
    case Some(text) => Some(Truncate(text, max))
  }

  function OrEmpty(s: Option<JsString>): JsString {
    if s.Some? then s.value else []
  }

  function NormaliseField(f: Field): Field {
    Field(Some(Truncate(OrEmpty(f.name), FIELD_NAME_MAX)), Some(Truncate(OrEmpty(f.value), FIELD_VALUE_MAX)), f.inlined)
  }

  function NormaliseFields(fs: seq<Field>): (r: seq<Field>) {
    var kept := if |fs| <= MAX_FIELDS_PER_EMBED then fs else fs[..MAX_FIELDS_PER_EMBED];
    seq(|kept|, i requires 0 <= i < |kept| => NormaliseField(kept[i]))
  }

  function NormaliseEmbed(e: Embed): Embed {
    e.(title := TruncateOption(e.title, TITLE_MAX),
       description := TruncateOption(e.description, DESCRIPTION_MAX),
       fields := if e.fields.Some? then Some(NormaliseFields(e.fields.value)) else None,
       footer := if e.footer.Some?
                 then Some(e.footer.value.(text := TruncateOption(e.footer.value.text, FOOTER_TEXT_MAX)))
                 else None,
       author := if e.author.Some?
                 then Some(e.author.value.(name := TruncateOption(e.author.value.name, AUTHOR_NAME_MAX)))
                 else None)
  }

  function NormaliseAll(es: seq<Embed>): (r: seq<Embed>)
    ensures |r| == |es|
  {
    seq(|es|, i requires 0 <= i < |es| => NormaliseEmbed(es[i]))
  }

  /** Builders normalise once and the chunker normalises again: the second pass changes nothing. */
  lemma NormaliseIdempotent(e: Embed)
    ensures NormaliseEmbed(NormaliseEmbed(e)) == NormaliseEmbed(e)
  {
    if e.fields.Some? {
      NormaliseFieldsIdempotent(e.fields.value);
    }
  }

  lemma NormaliseFieldsIdempotent(fs: seq<Field>)
    ensures NormaliseFields(NormaliseFields(fs)) == NormaliseFields(fs)
  {
    var once := NormaliseFields(fs);
    var twice := NormaliseFields(once);
    assert |twice| == |once|;
    forall i | 0 <= i < |once| ensures twice[i] == once[i] {
      assert once[i] == NormaliseField(fs[i]);
      assert twice[i] == NormaliseField(once[i]);
    }
  }

  /** A text within the limit is kept; a longer one is cut to exactly the limit, an ellipsis last. */
  ghost predicate CutTo(given: Option<JsString>, sent: Option<JsString>, max: nat) {
    && (given.None? ==> sent == None)
    && (given.Some? && |given.value| <= max ==> sent == given)
    && (given.Some? && |given.value| > max > 0 ==>
          && sent.Some? && |sent.value| == max
          && sent.value[..max - 1] == given.value[..max - 1] && sent.value[max - 1] == 0x2026)
  }

  ghost predicate FieldCut(given: Field, sent: Field) {
    && CutTo(Some(OrEmpty(given.name)), sent.name, 256) && CutTo(Some(OrEmpty(given.value)), sent.value, 1024)
    && sent.inlined == given.inlined
  }

  /** The first 25 fields, in order. */
  ghost predicate FieldsCut(given: seq<Field>, sent: seq<Field>) {
    && |sent| == (if |given| <= 25 then |given| else 25)
    && forall i :: 0 <= i < |sent| ==> FieldCut(given[i], sent[i])
  }

  /** Normalising cuts every text to its own limit and the fields to 25, and touches nothing else. */
  lemma NormaliseCuts(e: Embed)
    ensures var t := NormaliseEmbed(e);
            && CutTo(e.title, t.title, 256) && CutTo(e.description, t.description, 4096)
            && t.color == e.color && t.url == e.url
            && t.fields.Some? == e.fields.Some? && t.footer.Some? == e.footer.Some?
            && t.author.Some? == e.author.Some?
            && (e.fields.Some? ==> FieldsCut(e.fields.value, t.fields.value))
            && (e.footer.Some? ==>
                  CutTo(e.footer.value.text, t.footer.value.text, 2048)
                  && t.footer.value.iconUrl == e.footer.value.iconUrl)
            && (e.author.Some? ==>
                  && CutTo(e.author.value.name, t.author.value.name, 256)
                  && t.author.value.iconUrl == e.author.value.iconUrl && t.author.value.url == e.author.value.url)
  {
    if e.fields.Some? {
      var given, sent := e.fields.value, NormaliseFields(e.fields.value);
      forall i | 0 <= i < |sent| ensures FieldCut(given[i], sent[i]) {
        assert sent[i] == NormaliseField(given[i]);
      }
    }
  }

  predicate Fits(s: Option<JsString>, max: nat) { s.Some? ==> |s.value| <= max }

  predicate FieldFits(f: Field) { f.name.Some? && f.value.Some? && Fits(f.name, 256) && Fits(f.value, 1024) }

  /** An embed within all of Discord's limits, every field with a name and a value. */
  ghost predicate WithinLimits(e: Embed) {
    && Fits(e.title, 256) && Fits(e.description, 4096)
    && (e.footer.Some? ==> Fits(e.footer.value.text, 2048)) && (e.author.Some? ==> Fits(e.author.value.name, 256))
    && (e.fields.Some? ==>
          |e.fields.value| <= 25 && forall i :: 0 <= i < |e.fields.value| ==> FieldFits(e.fields.value[i]))
  }

  /** Exactly the embeds within the limits are sent as they are. */
  lemma KeptExactlyWhen(e: Embed)
    ensures NormaliseEmbed(e) == e <==> WithinLimits(e)
  {
    if e.fields.Some? {
      FieldsKeptExactlyWhen(e.fields.value);
    }
  }

  lemma FieldsKeptExactlyWhen(fs: seq<Field>)
    ensures NormaliseFields(fs) == fs <==> |fs| <= 25 && forall i :: 0 <= i < |fs| ==> FieldFits(fs[i])
  {
    var kept := NormaliseFields(fs);
    forall i | 0 <= i < |kept| ensures kept[i] == fs[i] <==> FieldFits(fs[i]) {
      assert kept[i] == NormaliseField(fs[i]);
    }
    assert kept == fs <==> |kept| == |fs| && forall i :: 0 <= i < |fs| ==> kept[i] == fs[i];
  }

  lemma AllKept(es: seq<Embed>)
    requires forall i :: 0 <= i < |es| ==> WithinLimits(es[i])
    ensures NormaliseAll(es) == es
  {
    forall i | 0 <= i < |es| ensures NormaliseAll(es)[i] == es[i] {
      KeptExactlyWhen(es[i]);
    }
  }

  // ---------- cost ----------

  function Length(s: Option<JsString>): nat {
    if s.Some? then |s.value| else 0
  }

  function FieldsCost(fs: seq<Field>): nat {
    if fs == [] then 0
    else FieldsCost(fs[..|fs| - 1]) + Length(fs[|fs| - 1].name) + Length(fs[|fs| - 1].value)
  }

  function EmbedCost(e: Embed): nat {
    Length(e.title) + Length(e.description)
    + (if e.fields.Some? then FieldsCost(e.fields.value) else 0)
    + (if e.footer.Some? then Length(e.footer.value.text) else 0)
    + (if e.author.Some? then Length(e.author.value.name) else 0)
  }

  function Cost(es: seq<Embed>): nat {
    if es == [] then 0 else Cost(es[..|es| - 1]) + EmbedCost(es[|es| - 1])
  }

  method EmbedCharCount(e: Embed) returns (n: nat)
    ensures n == EmbedCost(e)
  {
    n := 0;
    if e.title.Some? { n := n + |e.title.value|; }
    if e.description.Some? { n := n + |e.description.value|; }
    if e.fields.Some? {
      var fs := e.fields.value;
      var i := 0;
      while i < |fs|
        invariant 0 <= i <= |fs|
        invariant n == Length(e.title) + Length(e.description) + FieldsCost(fs[..i])
      {
        assert fs[..i + 1][..i] == fs[..i];
        if fs[i].name.Some? { n := n + |fs[i].name.value|; }
        if fs[i].value.Some? { n := n + |fs[i].value.value|; }
        i := i + 1;
      }
      assert fs[..i] == fs;
    }
    if e.footer.Some? && e.footer.value.text.Some? { n := n + |e.footer.value.text.value|; }
    if e.author.Some? && e.author.value.name.Some? { n := n + |e.author.value.name.value|; }
  }

  /** Each text counts for its length, whatever else the embed holds; colours, URLs and icons count for nothing. */
  lemma EveryTextCounts(e: Embed, s: JsString, f: Field, icon: Option<JsString>, url: Option<JsString>)
    ensures EmbedCost(Embed(None, None, e.color, e.url, None, None, None)) == 0
    ensures EmbedCost(e.(title := Some(s))) == EmbedCost(e.(title := None)) + |s|
    ensures EmbedCost(e.(description := Some(s))) == EmbedCost(e.(description := None)) + |s|
    ensures EmbedCost(e.(footer := Some(Footer(Some(s), icon)))) == EmbedCost(e.(footer := None)) + |s|
    ensures EmbedCost(e.(footer := Some(Footer(None, icon)))) == EmbedCost(e.(footer := None))
    ensures EmbedCost(e.(author := Some(Author(Some(s), icon, url)))) == EmbedCost(e.(author := None)) + |s|
    ensures EmbedCost(e.(author := Some(Author(None, icon, url)))) == EmbedCost(e.(author := None))
    ensures EmbedCost(e.(fields := Some([]))) == EmbedCost(e.(fields := None))
    ensures e.fields.Some? ==>
              EmbedCost(e.(fields := Some(e.fields.value + [f]))) == EmbedCost(e) + Length(f.name) + Length(f.value)
  {
    if e.fields.Some? {
      assert (e.fields.value + [f])[..|e.fields.value|] == e.fields.value;
    }
  }

  lemma {:induction false} CostAppend(a: seq<Embed>, b: seq<Embed>)
    ensures Cost(a + b) == Cost(a) + Cost(b)
  {
    if b == [] {
      assert a + b == a;
    } else {
      var init := b[..|b| - 1];
      assert (a + b)[..|a + b| - 1] == a + init;
      CostAppend(a, init);
    }
  }

  // ---------- what a chunking is ----------

  predicate WithinCaps(chunk: seq<Embed>, maxEmbeds: int, maxChars: int) {
    |chunk| <= maxEmbeds && Cost(chunk) <= maxChars
  }

  /** A chunk Discord takes, or a lone embed that no chunking can make smaller. */
  predicate Admissible(chunk: seq<Embed>, maxEmbeds: int, maxChars: int) {
    |chunk| == 1 || WithinCaps(chunk, maxEmbeds, maxChars)
  }

  /** An order-preserving partition of `es`: nothing lost, reordered or repeated, every part admissible. */
  ghost predicate Partitions(parts: seq<seq<Embed>>, es: seq<Embed>, maxEmbeds: int, maxChars: int) {
    && Flatten(parts) == es
    && forall i :: 0 <= i < |parts| ==> Admissible(parts[i], maxEmbeds, maxChars)
  }

  // ---------- the greedy packer ----------

  function Place(chunks: seq<seq<Embed>>, e: Embed, maxEmbeds: int, maxChars: int): seq<seq<Embed>> {
    if chunks == [] then [[e]]
    else
      var last := chunks[|chunks| - 1];
      if |last| >= maxEmbeds || Cost(last) + EmbedCost(e) > maxChars
      then chunks + [[e]]
      else chunks[..|chunks| - 1] + [last + [e]]
  }

  function Pack(es: seq<Embed>, maxEmbeds: int, maxChars: int): seq<seq<Embed>> {
    if es == [] then []
    else Place(Pack(es[..|es| - 1], maxEmbeds, maxChars), es[|es| - 1], maxEmbeds, maxChars)
  }

  method ChunkEmbeds(
      embeds: seq<Embed>, maxEmbeds: int := MAX_EMBEDS_PER_MESSAGE, maxChars: int := MAX_TOTAL_CHARS_PER_MESSAGE)
    returns (chunks: seq<seq<Embed>>)
    ensures chunks == Pack(NormaliseAll(embeds), maxEmbeds, maxChars)
    ensures Partitions(chunks, NormaliseAll(embeds), maxEmbeds, maxChars)
    ensures forall i :: 0 <= i < |chunks| ==> chunks[i] != []
    ensures forall parts :: Partitions(parts, NormaliseAll(embeds), maxEmbeds, maxChars) ==> |chunks| <= |parts|
    ensures (forall i :: 0 <= i < |embeds| ==> WithinLimits(embeds[i])) ==> Flatten(chunks) == embeds
  {
    chunks := [];
    var current: seq<Embed> := [];
    var currentChars := 0;
    ghost var all := NormaliseAll(embeds);
    for i := 0 to |embeds|
      invariant current == [] ==> i == 0 && chunks == []
      invariant currentChars == Cost(current)
      invariant Pack(all[..i], maxEmbeds, maxChars) == Flushed(chunks, current)
    {
      var safe := NormaliseEmbed(embeds[i]);
      var cost := EmbedCharCount(safe);
      var wouldOverflow := |current| >= maxEmbeds || currentChars + cost > maxChars;
      PackNext(all, i, chunks, current, maxEmbeds, maxChars);
      if |current| > 0 && wouldOverflow {
        chunks := chunks + [current];
        current := [];
        currentChars := 0;
      }
      CostSnoc(current, safe);
      current := current + [safe];
      currentChars := currentChars + cost;
    }
    assert all[..|embeds|] == all;
    if |current| > 0 { chunks := chunks + [current]; }
    PackIsBest(all, maxEmbeds, maxChars);
    if forall i :: 0 <= i < |embeds| ==> WithinLimits(embeds[i]) { AllKept(embeds); }
  }

  /** What the loop would return if it stopped here. */
  function Flushed(chunks: seq<seq<Embed>>, current: seq<Embed>): seq<seq<Embed>> {
    if current == [] then [] else chunks + [current]
  }

  /** One round of the loop places one more embed. */
  lemma PackNext(all: seq<Embed>, i: nat, chunks: seq<seq<Embed>>, current: seq<Embed>, maxEmbeds: int, maxChars: int)
    requires i < |all| && (current == [] ==> chunks == [])
    requires Pack(all[..i], maxEmbeds, maxChars) == Flushed(chunks, current)
    ensures var e := all[i];
            var wouldOverflow := |current| >= maxEmbeds || Cost(current) + EmbedCost(e) > maxChars;
            Pack(all[..i + 1], maxEmbeds, maxChars)
              == if current != [] && wouldOverflow then Flushed(chunks + [current], [e])
                 else Flushed(chunks, current + [e])
  {
    var e := all[i];
    assert all[..i + 1][..i] == all[..i] && all[..i + 1][i] == e;
    if current == [] {
      assert chunks + [[e]] == [[e]] && [] + [e] == [e];
    } else {
      assert (chunks + [current])[..|chunks|] == chunks;
    }
  }

  lemma PackIsBest(es: seq<Embed>, maxEmbeds: int, maxChars: int)
    ensures Partitions(Pack(es, maxEmbeds, maxChars), es, maxEmbeds, maxChars)
    ensures forall i :: 0 <= i < |Pack(es, maxEmbeds, maxChars)| ==> Pack(es, maxEmbeds, maxChars)[i] != []
    ensures forall parts :: Partitions(parts, es, maxEmbeds, maxChars) ==> |Pack(es, maxEmbeds, maxChars)| <= |parts|
  {
    PackPartitions(es, maxEmbeds, maxChars);
    forall parts | Partitions(parts, es, maxEmbeds, maxChars) ensures |Pack(es, maxEmbeds, maxChars)| <= |parts| {
      PackIsMinimal(es, parts, maxEmbeds, maxChars);
    }
  }

  // ---------- lossless, ordered, within the caps ----------

  lemma {:induction false} PackPartitions(es: seq<Embed>, maxEmbeds: int, maxChars: int)
    ensures Partitions(Pack(es, maxEmbeds, maxChars), es, maxEmbeds, maxChars)
    ensures forall i :: 0 <= i < |Pack(es, maxEmbeds, maxChars)| ==> Pack(es, maxEmbeds, maxChars)[i] != []
    ensures es != [] ==> Pack(es, maxEmbeds, maxChars) != []
  {
    if es == [] {
    } else {
      var init, e := es[..|es| - 1], es[|es| - 1];
      PackPartitions(init, maxEmbeds, maxChars);
      PlacePartitions(Pack(init, maxEmbeds, maxChars), init, e, maxEmbeds, maxChars);
      assert init + [e] == es;
    }
  }

  lemma CostSnoc(es: seq<Embed>, e: Embed)
    ensures Cost(es + [e]) == Cost(es) + EmbedCost(e)
  {
    assert (es + [e])[..|es|] == es;
  }

  lemma PlacePartitions(chunks: seq<seq<Embed>>, es: seq<Embed>, e: Embed, maxEmbeds: int, maxChars: int)
    requires Partitions(chunks, es, maxEmbeds, maxChars)
    requires forall i :: 0 <= i < |chunks| ==> chunks[i] != []
    ensures var placed := Place(chunks, e, maxEmbeds, maxChars);
            Partitions(placed, es + [e], maxEmbeds, maxChars) && placed != []
            && forall i :: 0 <= i < |placed| ==> placed[i] != []
  {
    if chunks == [] {
      assert Place(chunks, e, maxEmbeds, maxChars) == [] + [[e]];
      FlattenSnoc([], [e]);
    } else {
      var front, last := chunks[..|chunks| - 1], chunks[|chunks| - 1];
      assert chunks == front + [last];
      FlattenSnoc(front, last);
      FlattenSnoc(chunks, [e]);
      FlattenSnoc(front, last + [e]);
      CostSnoc(last, e);
      assert Flatten(front) + (last + [e]) == es + [e];
    }
  }

  /**
   * A chunk goes over the character cap exactly when it is one embed that is over it alone, so the caps
   * hold of every chunk as soon as they hold of every single embed.
   */
  lemma OverCapOnlyAlone(es: seq<Embed>, maxEmbeds: int, maxChars: int, k: nat)
    requires maxEmbeds >= 1
    requires k < |Pack(es, maxEmbeds, maxChars)|
    ensures var chunk := Pack(es, maxEmbeds, maxChars)[k];
            && 1 <= |chunk| <= maxEmbeds
            && (Cost(chunk) > maxChars <==> |chunk| == 1 && EmbedCost(chunk[0]) > maxChars)
  {
    PackPartitions(es, maxEmbeds, maxChars);
    var chunk := Pack(es, maxEmbeds, maxChars)[k];
    if |chunk| == 1 {
      assert chunk[..0] == [];
    }
  }

  // ---------- greedy is optimal ----------

  /** Dropping the last embed of a partition whose last part holds more than that embed. */
  lemma ShortenLast(parts: seq<seq<Embed>>, es: seq<Embed>, maxEmbeds: int, maxChars: int)
    returns (shorter: seq<seq<Embed>>)
    requires Partitions(parts, es, maxEmbeds, maxChars)
    requires parts != [] && |parts[|parts| - 1]| >= 2
    ensures |shorter| == |parts| && es != []
    ensures Partitions(shorter, es[..|es| - 1], maxEmbeds, maxChars)
    ensures shorter[|parts| - 1] == parts[|parts| - 1][..|parts[|parts| - 1]| - 1]
  {
    var init, last := parts[..|parts| - 1], parts[|parts| - 1];
    var cut := last[..|last| - 1];
    shorter := init + [cut];
    assert last == cut + [last[|last| - 1]];
    FlattenSnoc(init, cut);
    assert parts == init + [last];
    FlattenSnoc(init, last);
    assert es[..|es| - 1] == Flatten(init) + cut;
  }

  /** The greedy packer never uses more chunks, and on a tie its open chunk is no longer. */
  lemma {:induction false} GreedyStaysAhead(es: seq<Embed>, parts: seq<seq<Embed>>, maxEmbeds: int, maxChars: int)
    requires Partitions(parts, es, maxEmbeds, maxChars)
    ensures var packed := Pack(es, maxEmbeds, maxChars);
            && |packed| <= |parts|
            && (|packed| == |parts| > 0 ==> |packed[|packed| - 1]| <= |parts[|parts| - 1]|)
    decreases |es|, |parts|
  {
    if es == [] {
    } else {
      var init, e := es[..|es| - 1], es[|es| - 1];
      var before := Pack(init, maxEmbeds, maxChars);
      var front, last := parts[..|parts| - 1], parts[|parts| - 1];
      if last == [] {
        DropLast(parts, es, maxEmbeds, maxChars);
        assert es[..|es| - |last|] == es;
        GreedyStaysAhead(es, front, maxEmbeds, maxChars);
      } else if |last| == 1 {
        DropLast(parts, es, maxEmbeds, maxChars);
        GreedyStaysAhead(init, front, maxEmbeds, maxChars);
        PlaceStaysAhead(before, e, |parts|, 1, maxEmbeds, maxChars);
      } else {
        var shorter := ShortenLast(parts, es, maxEmbeds, maxChars);
        GreedyStaysAhead(init, shorter, maxEmbeds, maxChars);
        PackPartitions(init, maxEmbeds, maxChars);
        if |before| == |parts| {
          OpenChunkFits(init, e, before, shorter, last, maxEmbeds, maxChars);
        }
        PlaceStaysAhead(before, e, |parts|, |last|, maxEmbeds, maxChars);
      }
    }
  }

  /** Placing keeps within n chunks, the last of at most k: with n chunks already, the last must have room. */
  lemma PlaceStaysAhead(chunks: seq<seq<Embed>>, e: Embed, n: nat, k: nat, maxEmbeds: int, maxChars: int)
    requires |chunks| <= n && 0 < n && 0 < k
    requires |chunks| == n ==>
               var open := chunks[n - 1];
               |open| < k && |open| < maxEmbeds && Cost(open) + EmbedCost(e) <= maxChars
    ensures var placed := Place(chunks, e, maxEmbeds, maxChars);
            |placed| <= n && (|placed| == n ==> |placed[n - 1]| <= k)
  {
  }

  lemma DropLast(parts: seq<seq<Embed>>, es: seq<Embed>, maxEmbeds: int, maxChars: int)
    requires Partitions(parts, es, maxEmbeds, maxChars) && parts != []
    ensures |parts[|parts| - 1]| <= |es|
    ensures Partitions(parts[..|parts| - 1], es[..|es| - |parts[|parts| - 1]|], maxEmbeds, maxChars)
  {
  }

  /** On a tie the open chunk is a suffix of the other partition's last part, so what fits there fits here. */
  lemma OpenChunkFits(init: seq<Embed>, e: Embed, before: seq<seq<Embed>>, shorter: seq<seq<Embed>>, last: seq<Embed>,
                      maxEmbeds: int, maxChars: int)
    requires before != [] && shorter != []
    requires Flatten(before) == Flatten(shorter) == init
    requires |before[|before| - 1]| <= |shorter[|shorter| - 1]|
    requires last == shorter[|shorter| - 1] + [e] && WithinCaps(last, maxEmbeds, maxChars)
    ensures |before[|before| - 1]| < maxEmbeds && Cost(before[|before| - 1]) + EmbedCost(e) <= maxChars
  {
    var open, other := before[|before| - 1], shorter[|shorter| - 1];
    var cut := |other| - |open|;
    assert open == init[|init| - |open|..] == other[cut..];
    assert other == other[..cut] + open;
    CostAppend(other[..cut], open);
    CostAppend(other, [e]);
    assert [e][..0] == [];
  }

  lemma PackIsMinimal(es: seq<Embed>, parts: seq<seq<Embed>>, maxEmbeds: int, maxChars: int)
    requires Partitions(parts, es, maxEmbeds, maxChars)
    ensures |Pack(es, maxEmbeds, maxChars)| <= |parts|
  {
    GreedyStaysAhead(es, parts, maxEmbeds, maxChars);
  }

  // ---------- slices keep their number when rows are added ----------

  /** Appending embeds leaves every chunk but the last as it was, and the last one only grows. */
  lemma {:induction false} PackExtends(es: seq<Embed>, more: seq<Embed>, maxEmbeds: int, maxChars: int)
    ensures var before, after := Pack(es, maxEmbeds, maxChars), Pack(es + more, maxEmbeds, maxChars);
            && |before| <= |after|
            && (forall i :: 0 <= i < |before| - 1 ==> after[i] == before[i])
            && (before != [] ==> before[|before| - 1] <= after[|before| - 1])
  {
    if more == [] {
      assert es + more == es;
    } else {
      var rest := more[..|more| - 1];
      assert (es + more)[..|es + more| - 1] == es + rest;
      PackExtends(es, rest, maxEmbeds, maxChars);
    }
  }

  // ---------- the digests stay under the caps; a full embed does not ----------

  /** The row card of the daily, weekly and absence digests: a title and a description, no fields. */
  function RowCard(title: JsString, description: JsString, color: int): Embed {
    NormaliseEmbed(Embed(Some(title), Some(description), Some(color), None, None, None, None))
  }

  ghost predicate IsRowCard(e: Embed) {
    exists title: JsString, description: JsString, color: int :: e == RowCard(title, description, color)
  }

  lemma DigestsRespectBothCaps(rows: seq<Embed>, k: nat)
    requires forall i :: 0 <= i < |rows| ==> IsRowCard(rows[i])
    requires k < |Pack(NormaliseAll(rows), MAX_EMBEDS_PER_MESSAGE, MAX_TOTAL_CHARS_PER_MESSAGE)|
    ensures var chunk := Pack(NormaliseAll(rows), MAX_EMBEDS_PER_MESSAGE, MAX_TOTAL_CHARS_PER_MESSAGE)[k];
            |chunk| <= 10 && Cost(chunk) <= 6000
    ensures forall parts :: Partitions(parts, NormaliseAll(rows), 10, 6000) ==>
              |Pack(NormaliseAll(rows), MAX_EMBEDS_PER_MESSAGE, MAX_TOTAL_CHARS_PER_MESSAGE)| <= |parts|
  {
    var all := NormaliseAll(rows);
    forall i | 0 <= i < |rows| ensures all[i] == rows[i] && EmbedCost(all[i]) <= TITLE_MAX + DESCRIPTION_MAX {
      var title, description, color :| rows[i] == RowCard(title, description, color);
      NormaliseIdempotent(Embed(Some(title), Some(description), Some(color), None, None, None, None));
    }
    PackPartitions(all, MAX_EMBEDS_PER_MESSAGE, MAX_TOTAL_CHARS_PER_MESSAGE);
    OverCapOnlyAlone(all, MAX_EMBEDS_PER_MESSAGE, MAX_TOTAL_CHARS_PER_MESSAGE, k);
    PartsComeFromInput(Pack(all, MAX_EMBEDS_PER_MESSAGE, MAX_TOTAL_CHARS_PER_MESSAGE), k, 0);
    PackIsBest(all, 10, 6000);
  }

  lemma {:induction false} PartsComeFromInput<T>(parts: seq<seq<T>>, k: nat, j: nat)
    requires k < |parts| && j < |parts[k]|
    ensures parts[k][j] in Flatten(parts)
  {
    if k == |parts| - 1 {
    } else {
      PartsComeFromInput(parts[..|parts| - 1], k, j);
    }
  }

  /**
   * The source comment calls an oversized single embed impossible after normalisation. It is not: 25 full
   * fields are already normal and cost 32000.
   */
  lemma NormalEmbedCanExceedTheCap() returns (e: Embed)
    ensures NormaliseEmbed(e) == e && EmbedCost(e) == 32000 > MAX_TOTAL_CHARS_PER_MESSAGE
  {
    var name: JsString := seq(FIELD_NAME_MAX, _ => 97);
    var value: JsString := seq(FIELD_VALUE_MAX, _ => 97);
    var f := Field(Some(name), Some(value), None);
    var fs := seq(MAX_FIELDS_PER_EMBED, _ => f);
    e := Embed(None, None, None, None, Some(fs), None, None);
    var normal := NormaliseFields(fs);
    assert NormaliseField(f) == f;
    assert |normal| == |fs| && forall i :: 0 <= i < |fs| ==> normal[i] == fs[i];
    assert normal == fs;
    RepeatedFieldCost(f, MAX_FIELDS_PER_EMBED);
  }

  lemma {:induction false} RepeatedFieldCost(f: Field, n: nat)
    ensures FieldsCost(seq(n, _ => f)) == n * (Length(f.name) + Length(f.value))
  {
    if n == 0 {
    } else {
      RepeatedFieldCost(f, n - 1);
      var fs := seq(n, _ => f);
      assert fs[..n - 1] == seq(n - 1, _ => f);
      assert n * (Length(f.name) + Length(f.value))
               == (n - 1) * (Length(f.name) + Length(f.value)) + (Length(f.name) + Length(f.value));
    }
  }
}
