/** The decrypted secrets of an account: how an update merges, cleans and compares them. */
module SecretPayloads {
  import opened CustomFieldBags
  import opened JsStrings
  import opened Sieving
  import opened Sorting
  import opened Splitting

  const PIPE: CodeUnit := 0x7C
  const MAX_CUSTOM_FIELDS := 32

  /** A property of an object: absent, present but undefined or null, or present with a value. */
  datatype Prop<+T> = Missing | Undefined | Given(value: T)

  datatype Payload = Payload(
    username: Prop<Text>,
    email: Prop<Text>,
    password: Prop<Text>,
    totpSeed: Prop<Text>,
    pin: Prop<Text>,
    secureNote: Prop<Text>,
    recoveryCodes: Prop<seq<Text>>,
    securityAnswers: Prop<seq<Text>>,
    customFields: Prop<seq<CustomField>>)

  const EMPTY := Payload(Missing, Missing, Missing, Missing, Missing, Missing, Missing, Missing, Missing)

  // ---------- sanitizePayload ----------

  function KeptText(p: Prop<Text>): Prop<Text> {
    if p.Given? && p.value.units != [] then p else Missing
  }

  function KeptList<T>(p: Prop<seq<T>>): Prop<seq<T>> {
    if p.Given? && |p.value| > 0 then p else Missing
  }

  function NoSpaces(s: JsString): JsString {
    if s == [] then []
    else NoSpaces(s[..|s| - 1]) + if IsSpace(s[|s| - 1]) then [] else [s[|s| - 1]]
  }

  function Named(list: seq<CustomField>): seq<CustomField> {
    if list == [] then []
    else
      var f := list[|list| - 1];
      Named(list[..|list| - 1]) + if IsBlank(f.name.units) then [] else [f]
  }

  function KeptFields(p: Prop<seq<CustomField>>): Prop<seq<CustomField>> {
    if p.Given? && |p.value| > 0
    then Given(if |Named(p.value)| > MAX_CUSTOM_FIELDS then Named(p.value)[..MAX_CUSTOM_FIELDS] else Named(p.value))
    else Missing
  }

  function KeptSeed(p: Prop<Text>, upper: JsString -> JsString): Prop<Text> {
    if KeptText(p).Given? then Given(Text(upper(NoSpaces(p.value.units)))) else Missing
  }

  /** The stored form; `upper` stands for toUpperCase. */
  function Sanitize(p: Payload, upper: JsString -> JsString): Payload {
    Payload(
      KeptText(p.username),
      KeptText(p.email),
      KeptText(p.password),
      KeptSeed(p.totpSeed, upper),
      KeptText(p.pin),
      KeptText(p.secureNote),
      KeptList(p.recoveryCodes),
      KeptList(p.securityAnswers),
      KeptFields(p.customFields))
  }

  // ---------- what is given is what is stored ----------

  /** A text that is not empty is stored unchanged; an empty or absent one is dropped. */
  ghost predicate TextStored(given: Prop<Text>, stored: Prop<Text>) {
    if given.Given? && given.value != Text([]) then stored == given else stored == Missing
  }

  ghost predicate ListStored<T(!new)>(given: Prop<seq<T>>, stored: Prop<seq<T>>) {
    if given.Given? && given.value != [] then stored == given else stored == Missing
  }

  /** The seed is stored in upper case, without its white space: all its other characters, in order. */
  ghost predicate SeedStored(given: Prop<Text>, stored: Prop<Text>, upper: JsString -> JsString) {
    if given.Given? && given.value != Text([])
    then exists kept :: Sieves(given.value.units, kept, (u: CodeUnit) => !IsSpace(u))
                        && stored == Given(Text(upper(kept)))
    else stored == Missing
  }

  /** The fields stored are the first 32 of those with a label that is not blank, in order. */
  ghost predicate FieldsStored(given: Prop<seq<CustomField>>, stored: Prop<seq<CustomField>>) {
    if given.Given? && given.value != []
    then && stored.Given?
         && exists named :: Sieves(given.value, named, (f: CustomField) => !IsBlank(f.name.units))
                            && stored.value == if |named| <= 32 then named else named[..32]
    else stored == Missing
  }

  ghost predicate PayloadStored(given: Payload, stored: Payload, upper: JsString -> JsString) {
    && TextStored(given.username, stored.username) && TextStored(given.email, stored.email)
    && TextStored(given.password, stored.password) && TextStored(given.pin, stored.pin)
    && TextStored(given.secureNote, stored.secureNote)
    && SeedStored(given.totpSeed, stored.totpSeed, upper)
    && ListStored(given.recoveryCodes, stored.recoveryCodes)
    && ListStored(given.securityAnswers, stored.securityAnswers)
    && FieldsStored(given.customFields, stored.customFields)
  }

  lemma {:induction false} NoSpacesSieves(s: JsString)
    ensures Sieves(s, NoSpaces(s), (u: CodeUnit) => !IsSpace(u))
  {
    if s == [] {
      NothingSieved((u: CodeUnit) => !IsSpace(u));
    } else {
      var init, u := s[..|s| - 1], s[|s| - 1];
      NoSpacesSieves(init);
      assert s == init + [u];
      if IsSpace(u) {
        SieveDrops(init, NoSpaces(init), u, (u: CodeUnit) => !IsSpace(u));
      } else {
        SieveKeeps(init, NoSpaces(init), u, (u: CodeUnit) => !IsSpace(u));
      }
    }
  }

  lemma {:induction false} NamedSieves(list: seq<CustomField>)
    ensures Sieves(list, Named(list), (f: CustomField) => !IsBlank(f.name.units))
  {
    if list == [] {
      NothingSieved((f: CustomField) => !IsBlank(f.name.units));
    } else {
      var init, f := list[..|list| - 1], list[|list| - 1];
      NamedSieves(init);
      assert list == init + [f];
      if IsBlank(f.name.units) {
        SieveDrops(init, Named(init), f, (f: CustomField) => !IsBlank(f.name.units));
      } else {
        SieveKeeps(init, Named(init), f, (f: CustomField) => !IsBlank(f.name.units));
      }
    }
  }

  /** Cleaning stores every text and list that is not empty whole, the seed in its canonical form. */
  lemma CleaningStoresWhatIsGiven(p: Payload, upper: JsString -> JsString)
    ensures PayloadStored(p, Sanitize(p, upper), upper)
  {
    if p.totpSeed.Given? { NoSpacesSieves(p.totpSeed.value.units); }
    if p.customFields.Given? { NamedSieves(p.customFields.value); }
  }

  // ---------- the merge of a partial update ----------

  function Over<T>(previous: Prop<T>, given: Prop<T>): Prop<T> { if given.Missing? then previous else given }

  /** Object spread: every key present in `dto` wins, even when its value is undefined. */
  function Merge(previous: Payload, dto: Payload): Payload {
    Payload(
      Over(previous.username, dto.username),
      Over(previous.email, dto.email),
      Over(previous.password, dto.password),
      Over(previous.totpSeed, dto.totpSeed),
      Over(previous.pin, dto.pin),
      Over(previous.secureNote, dto.secureNote),
      Over(previous.recoveryCodes, dto.recoveryCodes),
      Over(previous.securityAnswers, dto.securityAnswers),
      Over(previous.customFields, dto.customFields))
  }

  /** A stored payload that storing again leaves as it is. */
  predicate Settled(p: Payload, upper: JsString -> JsString) { Sanitize(p, upper) == p }

  /** A text of an update: kept as it was when absent, dropped when undefined or empty, else stored unchanged. */
  ghost predicate TextSurvives(dto: Prop<Text>, previous: Prop<Text>, stored: Prop<Text>) {
    if dto.Missing? then stored == previous else TextStored(dto, stored)
  }

  ghost predicate ListSurvives<T(!new)>(dto: Prop<seq<T>>, previous: Prop<seq<T>>, stored: Prop<seq<T>>) {
    if dto.Missing? then stored == previous else ListStored(dto, stored)
  }

  /** A seed that was stored as an empty text is dropped by the next edit, and so is an empty list of fields. */
  ghost predicate SeedSurvives(
      dto: Prop<Text>, previous: Prop<Text>, stored: Prop<Text>, upper: JsString -> JsString) {
    if dto.Missing? then stored == (if previous == Given(Text([])) then Missing else previous)
    else SeedStored(dto, stored, upper)
  }

  ghost predicate FieldsSurvive(
      dto: Prop<seq<CustomField>>, previous: Prop<seq<CustomField>>, stored: Prop<seq<CustomField>>) {
    if dto.Missing? then stored == (if previous == Given([]) then Missing else previous)
    else FieldsStored(dto, stored)
  }

  ghost predicate Survives(dto: Payload, previous: Payload, stored: Payload, upper: JsString -> JsString) {
    && TextSurvives(dto.username, previous.username, stored.username)
    && TextSurvives(dto.email, previous.email, stored.email)
    && TextSurvives(dto.password, previous.password, stored.password)
    && TextSurvives(dto.pin, previous.pin, stored.pin)
    && TextSurvives(dto.secureNote, previous.secureNote, stored.secureNote)
    && SeedSurvives(dto.totpSeed, previous.totpSeed, stored.totpSeed, upper)
    && ListSurvives(dto.recoveryCodes, previous.recoveryCodes, stored.recoveryCodes)
    && ListSurvives(dto.securityAnswers, previous.securityAnswers, stored.securityAnswers)
    && FieldsSurvive(dto.customFields, previous.customFields, stored.customFields)
  }

  /** Over a settled payload an update stores what it was given, and keeps every key it does not carry. */
  lemma PartialUpdateKeepsAbsentKeys(previous: Payload, dto: Payload, upper: JsString -> JsString)
    requires Settled(previous, upper)
    ensures Survives(dto, previous, Sanitize(Merge(previous, dto), upper), upper)
  {
    CleaningStoresWhatIsGiven(dto, upper);
    var stored, given := Sanitize(Merge(previous, dto), upper), Sanitize(dto, upper);
    assert Sanitize(previous, upper) == previous;
    assert stored.totpSeed == if dto.totpSeed.Missing? then previous.totpSeed else given.totpSeed;
    assert stored.customFields == if dto.customFields.Missing? then previous.customFields else given.customFields;
  }

  // ---------- when a stored payload is settled ----------

  /** Upper-casing a seed without spaces brings none in, can be repeated, and empties only the empty seed. */
  ghost predicate UpperLaw(upper: JsString -> JsString) {
    forall s: JsString ::
      var seed := upper(NoSpaces(s));
      upper(NoSpaces(seed)) == seed && (seed == [] <==> NoSpaces(s) == [])
  }

  ghost predicate AllNamed(list: seq<CustomField>) {
    forall i :: 0 <= i < |list| ==> !IsBlank(list[i].name.units)
  }

  lemma {:induction false} NamedAreNamed(list: seq<CustomField>, f: CustomField)
    requires f in Named(list)
    ensures f in list && !IsBlank(f.name.units)
  {
    var init, last := list[..|list| - 1], list[|list| - 1];
    if f in Named(init) {
      NamedAreNamed(init, f);
    } else {
      assert f == last;
    }
  }

  lemma {:induction false} NamedIsAll(list: seq<CustomField>)
    requires AllNamed(list)
    ensures Named(list) == list
  {
    if list == [] {
    } else {
      var init, last := list[..|list| - 1], list[|list| - 1];
      NamedIsAll(init);
      assert Named(list) == init + [last];
    }
  }

  lemma FieldsSettle(p: Prop<seq<CustomField>>)
    ensures KeptFields(p).Given? ==> |KeptFields(p).value| <= MAX_CUSTOM_FIELDS && AllNamed(KeptFields(p).value)
    ensures KeptFields(KeptFields(p)) == KeptFields(p) <==> !(p.Given? && |p.value| > 0 && Named(p.value) == [])
  {
    if p.Given? && |p.value| > 0 {
      var kept := KeptFields(p).value;
      forall i | 0 <= i < |kept| ensures !IsBlank(kept[i].name.units) {
        assert kept[i] == Named(p.value)[i];
        NamedAreNamed(p.value, kept[i]);
      }
      NamedIsAll(kept);
    }
  }

  /** The one seed that is stored as an empty text. */
  predicate OnlySpaces(p: Prop<Text>) { KeptText(p).Given? && NoSpaces(p.value.units) == [] }

  /**
   * What is stored is settled, so storing it again changes nothing, except for a seed made of spaces only and a
   * field list without a single named field: those leave an empty text or list behind.
   */
  lemma StoredIsSettledExactlyWhen(p: Payload, upper: JsString -> JsString)
    requires UpperLaw(upper)
    ensures Settled(Sanitize(p, upper), upper)
       <==> (!OnlySpaces(p.totpSeed)
             && !(p.customFields.Given? && |p.customFields.value| > 0 && Named(p.customFields.value) == []))
  {
    var stored := Sanitize(p, upper);
    FieldsSettle(p.customFields);
    SeedSettles(p.totpSeed, upper);
    assert Sanitize(stored, upper)
             == stored.(totpSeed := KeptSeed(stored.totpSeed, upper), customFields := KeptFields(stored.customFields));
  }

  lemma SeedSettles(p: Prop<Text>, upper: JsString -> JsString)
    requires UpperLaw(upper)
    ensures KeptSeed(KeptSeed(p, upper), upper) == KeptSeed(p, upper) <==> !OnlySpaces(p)
  {
    if KeptText(p).Given? {
      var seed := upper(NoSpaces(p.value.units));
      assert upper(NoSpaces(seed)) == seed && (seed == [] <==> NoSpaces(p.value.units) == []);
    }
  }

  predicate EveryKeyPresent(dto: Payload) {
    && !dto.username.Missing? && !dto.email.Missing? && !dto.password.Missing? && !dto.totpSeed.Missing?
    && !dto.pin.Missing? && !dto.secureNote.Missing? && !dto.recoveryCodes.Missing?
    && !dto.securityAnswers.Missing? && !dto.customFields.Missing?
  }

  /** An update object that carries every declared key replaces the whole payload, whatever was stored before. */
  lemma FullObjectReplacesThePayload(previous: Payload, dto: Payload, upper: JsString -> JsString)
    requires EveryKeyPresent(dto)
    ensures Merge(previous, dto) == dto
    ensures dto.password.Given? && dto == ALL_UNDEFINED.(password := dto.password)
            ==> && Sanitize(Merge(previous, dto), upper).(password := Missing) == EMPTY
                && TextStored(dto.password, Sanitize(Merge(previous, dto), upper).password)
  {
  }

  const ALL_UNDEFINED :=
    Payload(Undefined, Undefined, Undefined, Undefined, Undefined, Undefined, Undefined, Undefined, Undefined)

  // ---------- diffSecretKeys ----------

  datatype SecretKey = Username | Email | Password | TotpSeed | Pin | SecureNote | RecoveryCodes | CustomFields

  const SCALAR_KEYS := [Username, Email, Password, TotpSeed, Pin, SecureNote]

  function Scalar(p: Payload, key: SecretKey): Prop<Text> {
    match key
    case Username => p.username
    case Email => p.email
    case Password => p.password
    case TotpSeed => p.totpSeed
    case Pin => p.pin
    case SecureNote => p.secureNote
    case _ => Missing
  }

  function UnitsOf(p: Prop<Text>): JsString { if p.Given? then p.value.units else [] }

  function TrimmedText(p: Prop<Text>): JsString { Trim(UnitsOf(p)) }

  function TrimmedAll(list: seq<Text>): seq<Text> {
    seq(|list|, i requires 0 <= i < |list| => Text(Trim(list[i].units)))
  }

  function Codes(p: Prop<seq<Text>>): JsString { if p.Given? then JoinTexts(TrimmedAll(p.value), PIPE) else [] }

  function FieldBag(p: Prop<seq<CustomField>>): JsString { if p.Given? then Bag(p.value) else [] }

  predicate Differs(key: SecretKey, before: Payload, after: Payload) {
    match key
    case RecoveryCodes => Codes(before.recoveryCodes) != Codes(after.recoveryCodes)
    case CustomFields => FieldBag(before.customFields) != FieldBag(after.customFields)
    case _ => TrimmedText(Scalar(before, key)) != TrimmedText(Scalar(after, key))
  }

  predicate IsScalar(key: SecretKey) { key != RecoveryCodes && key != CustomFields }

  /** The keys of the list that differ, in its order. */
  function Differing(keys: seq<SecretKey>, before: Payload, after: Payload): seq<SecretKey> {
    if keys == [] then []
    else
      var k := keys[|keys| - 1];
      Differing(keys[..|keys| - 1], before, after) + OneIf(k, Differs(k, before, after))
  }

  function OneIf(k: SecretKey, b: bool): seq<SecretKey> { if b then [k] else [] }

  function Diff(before: Payload, after: Payload): seq<SecretKey> {
    Differing(SCALAR_KEYS, before, after)
    + OneIf(RecoveryCodes, Differs(RecoveryCodes, before, after))
    + OneIf(CustomFields, Differs(CustomFields, before, after))
  }

  method DiffSecretKeys(before: Payload, after: Payload) returns (changed: seq<SecretKey>)
    ensures changed == Diff(before, after)
  {
    ScalarKeysAreScalars();
    ListsDiffer(before, after);
    changed := DiffScalars(before, after, SCALAR_KEYS);
    if Codes(before.recoveryCodes) != Codes(after.recoveryCodes) { changed := changed + [RecoveryCodes]; }
    if FieldBag(before.customFields) != FieldBag(after.customFields) { changed := changed + [CustomFields]; }
  }

  lemma ScalarKeysAreScalars()
    ensures forall i :: 0 <= i < |SCALAR_KEYS| ==> IsScalar(SCALAR_KEYS[i])
  {
  }

  lemma ListsDiffer(before: Payload, after: Payload)
    ensures Differs(RecoveryCodes, before, after) <==> Codes(before.recoveryCodes) != Codes(after.recoveryCodes)
    ensures Differs(CustomFields, before, after) <==> FieldBag(before.customFields) != FieldBag(after.customFields)
  {
  }

  /** The loop over the single texts. */
  method DiffScalars(before: Payload, after: Payload, keys: seq<SecretKey>) returns (changed: seq<SecretKey>)
    requires forall i :: 0 <= i < |keys| ==> IsScalar(keys[i])
    ensures changed == Differing(keys, before, after)
  {
    changed := [];
    var i := 0;
    while i < |keys|
      invariant 0 <= i <= |keys|
      invariant changed == Differing(keys[..i], before, after)
    {
      var k := keys[i];
      var a := TrimmedText(Scalar(before, k));
      var b := TrimmedText(Scalar(after, k));
      DifferingNext(keys, i, before, after);
      ScalarDiffers(k, before, after);
      if a != b { changed := changed + [k]; }
      i := i + 1;
    }
    assert keys[..i] == keys;
  }

  lemma ScalarDiffers(k: SecretKey, before: Payload, after: Payload)
    requires IsScalar(k)
    ensures Differs(k, before, after) <==> TrimmedText(Scalar(before, k)) != TrimmedText(Scalar(after, k))
  {
  }

  lemma DifferingNext(keys: seq<SecretKey>, i: nat, before: Payload, after: Payload)
    requires i < |keys|
    ensures Differing(keys[..i + 1], before, after)
         == Differing(keys[..i], before, after) + OneIf(keys[i], Differs(keys[i], before, after))
  {
    assert keys[..i + 1][..i] == keys[..i];
  }

  lemma {:induction false} DifferingAre(keys: seq<SecretKey>, before: Payload, after: Payload)
    ensures forall k :: k in Differing(keys, before, after) <==> k in keys && Differs(k, before, after)
  {
    if keys == [] {
    } else {
      DifferingAre(keys[..|keys| - 1], before, after);
      assert forall k :: k in keys <==> k in keys[..|keys| - 1] || k == keys[|keys| - 1];
    }
  }

  /** The diff names exactly the keys that differ. */
  lemma DiffNamesTheChanges(before: Payload, after: Payload)
    ensures forall k :: k in Diff(before, after) <==> Differs(k, before, after)
    ensures Diff(before, after) == [] <==> forall k :: !Differs(k, before, after)
  {
    var diff := Diff(before, after);
    DifferingAre(SCALAR_KEYS, before, after);
    forall k ensures k in diff <==> Differs(k, before, after) { ScalarsListed(k); }
    assert diff != [] ==> diff[0] in diff;
  }

  lemma ScalarsListed(k: SecretKey)
    ensures k in SCALAR_KEYS <==> IsScalar(k)
  {
    assert SCALAR_KEYS[0] == Username && SCALAR_KEYS[1] == Email && SCALAR_KEYS[2] == Password;
    assert SCALAR_KEYS[3] == TotpSeed && SCALAR_KEYS[4] == Pin && SCALAR_KEYS[5] == SecureNote;
  }

  /** Security answers are never compared: an update of only those counts as no change. */
  lemma AnswersAreNotCompared(before: Payload, answers: Prop<seq<Text>>)
    ensures Diff(before, before.(securityAnswers := answers)) == []
  {
    DiffNamesTheChanges(before, before.(securityAnswers := answers));
  }

  /** Some cleaned payload: everything the service ever stores. */
  ghost predicate IsClean(p: Payload, upper: JsString -> JsString) {
    exists x :: p == Sanitize(x, upper)
  }

  /** Cleaning once more, and with any answers, changes nothing the diff compares. */
  lemma CleanedTwiceDiffersNowhere(p: Payload, answers: Prop<seq<Text>>, upper: JsString -> JsString)
    requires UpperLaw(upper) && IsClean(p, upper)
    ensures Diff(p, Sanitize(Merge(p, EMPTY.(securityAnswers := answers)), upper)) == []
  {
    var x :| p == Sanitize(x, upper);
    var stored := Sanitize(Merge(p, EMPTY.(securityAnswers := answers)), upper);
    DiffNamesTheChanges(p, stored);
    SeedReadsTheSame(x.totpSeed, upper);
    FieldsReadTheSame(x.customFields);
    forall k ensures !Differs(k, p, stored) {
      match k
      case RecoveryCodes => assert stored.recoveryCodes == p.recoveryCodes;
      case CustomFields => assert stored.customFields == KeptFields(p.customFields);
      case TotpSeed => assert stored.totpSeed == KeptSeed(p.totpSeed, upper);
      case _ => assert Scalar(stored, k) == Scalar(p, k);
    }
  }

  /** The same over everything the service ever stores, settled or not. */
  lemma EditKeepsAbsentKeys(previous: Payload, dto: Payload, upper: JsString -> JsString)
    requires UpperLaw(upper) && IsClean(previous, upper)
    ensures Survives(dto, previous, Sanitize(Merge(previous, dto), upper), upper)
  {
    var x :| previous == Sanitize(x, upper);
    var stored, given := Sanitize(Merge(previous, dto), upper), Sanitize(dto, upper);
    CleaningStoresWhatIsGiven(dto, upper);
    SeedOnceMore(x.totpSeed, upper);
    FieldsSettle(x.customFields);
    assert stored.totpSeed == if dto.totpSeed.Missing? then KeptSeed(previous.totpSeed, upper) else given.totpSeed;
    assert stored.customFields
        == if dto.customFields.Missing? then KeptFields(previous.customFields) else given.customFields;
  }

  lemma SeedOnceMore(p: Prop<Text>, upper: JsString -> JsString)
    requires UpperLaw(upper)
    ensures var seed := KeptSeed(p, upper);
            KeptSeed(seed, upper) == if seed == Given(Text([])) then Missing else seed
  {
    SeedSettles(p, upper);
    if OnlySpaces(p) {
      assert upper(NoSpaces(p.value.units)) == [];
    }
  }

  lemma SeedReadsTheSame(p: Prop<Text>, upper: JsString -> JsString)
    requires UpperLaw(upper)
    ensures var seed := KeptSeed(p, upper); TrimmedText(KeptSeed(seed, upper)) == TrimmedText(seed)
  {
    SeedSettles(p, upper);
    if OnlySpaces(p) {
      assert upper(NoSpaces(p.value.units)) == [];
      assert KeptSeed(p, upper) == Given(Text([]));
    }
  }

  lemma FieldsReadTheSame(p: Prop<seq<CustomField>>)
    ensures var fields := KeptFields(p); FieldBag(KeptFields(fields)) == FieldBag(fields)
  {
    FieldsSettle(p);
    if KeptFields(KeptFields(p)) != KeptFields(p) {
      assert KeptFields(p) == Given([]);
      assert AllTrimmed([]) == [] && Sort([], Le) == [];
      assert Bag([]) == [];
    }
  }

  /** White space around texts, codes, labels and values is never a change. */
  lemma PaddingIsNoChange(before: Payload, after: Payload)
    requires forall k :: IsScalar(k) ==> Pads(UnitsOf(Scalar(before, k)), UnitsOf(Scalar(after, k)))
    requires PaddedCodes(ListOf(before.recoveryCodes), ListOf(after.recoveryCodes))
    requires PaddedFields(ListOf(before.customFields), ListOf(after.customFields))
    ensures Diff(before, after) == []
  {
    DiffIsEmptyExactlyWhen(before, after);
    forall k | IsScalar(k) ensures Trim(UnitsOf(Scalar(before, k))) == Trim(UnitsOf(Scalar(after, k))) {
      PaddedTrims(UnitsOf(Scalar(before, k)), UnitsOf(Scalar(after, k)));
    }
    PaddedCodesTrim(ListOf(before.recoveryCodes), ListOf(after.recoveryCodes));
    PaddedFieldsTrim(ListOf(before.customFields), ListOf(after.customFields));
  }

  ghost predicate PaddedCodes(a: seq<Text>, b: seq<Text>) {
    |a| == |b| && forall i :: 0 <= i < |a| ==> Pads(a[i].units, b[i].units)
  }

  ghost predicate PaddedFields(a: seq<CustomField>, b: seq<CustomField>) {
    && |a| == |b|
    && (forall i :: 0 <= i < |a| ==> Pads(a[i].name.units, b[i].name.units))
    && (forall i :: 0 <= i < |a| ==> Pads(a[i].value.units, b[i].value.units))
  }

  lemma PaddedCodesTrim(a: seq<Text>, b: seq<Text>)
    requires PaddedCodes(a, b)
    ensures TrimmedAll(a) == TrimmedAll(b)
  {
    forall i | 0 <= i < |a| ensures TrimmedAll(a)[i] == TrimmedAll(b)[i] {
      PaddedTrims(a[i].units, b[i].units);
    }
  }

  // ---------- what the diff can miss ----------

  /** The trimmed codes of a list, cut again at every bar. */
  function CodePieces(list: seq<Text>): Parts { Pieces(PartsOf(TrimmedAll(list)), PIPE) }

  /** Two code lists compare as equal exactly when their trimmed codes, each split again at the bar, are the same. */
  lemma CodesCompareExactlyWhen(a: seq<Text>, b: seq<Text>)
    ensures Codes(Given(a)) == Codes(Given(b)) <==> CodePieces(a) == CodePieces(b)
  {
    JoinsAgreeExactlyWhen(PartsOf(TrimmedAll(a)), PartsOf(TrimmedAll(b)), PIPE);
  }

  /** Codes without a bar that are not blank are told apart, position by position. */
  lemma CodesCompareLists(a: seq<Text>, b: seq<Text>)
    requires Free(TrimmedAll(a), PIPE) && Free(TrimmedAll(b), PIPE)
    ensures Codes(Given(a)) == Codes(Given(b)) <==> TrimmedAll(a) == TrimmedAll(b)
  {
    JoinIsInjective(TrimmedAll(a), TrimmedAll(b), PIPE);
  }

  function ListOf<T>(p: Prop<seq<T>>): seq<T> { if p.Given? then p.value else [] }

  /** No code is blank or holds a bar; no field has an equals sign in its label or a line break. */
  ghost predicate Plain(p: Payload) {
    && Free(TrimmedAll(ListOf(p.recoveryCodes)), PIPE)
    && AllReadable(AllTrimmed(ListOf(p.customFields)))
  }

  /** Everything but the security answers agrees, up to white space around texts and the order of fields. */
  ghost predicate SameSecrets(before: Payload, after: Payload) {
    && SameScalars(before, after)
    && TrimmedAll(ListOf(before.recoveryCodes)) == TrimmedAll(ListOf(after.recoveryCodes))
    && multiset(AllTrimmed(ListOf(before.customFields))) == multiset(AllTrimmed(ListOf(after.customFields)))
  }

  lemma AbsentListsAreEmpty(p: Payload)
    ensures Codes(p.recoveryCodes) == Codes(Given(ListOf(p.recoveryCodes)))
    ensures FieldBag(p.customFields) == Bag(ListOf(p.customFields))
  {
    assert TrimmedAll([]) == [] && AllTrimmed([]) == [];
    assert Sort([], Le) == [];
  }

  /**
   * For any two payloads the diff is empty exactly when the trimmed texts agree, the trimmed codes agree once cut at
   * their bars, and the sorted lines of the fields agree once cut at their line breaks.
   */
  lemma DiffIsEmptyExactlyWhen(before: Payload, after: Payload)
    ensures Diff(before, after) == [] <==> ReadsTheSame(before, after)
  {
    NoKeyDiffers(before, after);
    CodePiecesDiffer(before, after);
    LinePiecesDiffer(before, after);
  }

  /** The trimmed scalars agree. */
  ghost predicate SameScalars(before: Payload, after: Payload) {
    forall k :: IsScalar(k) ==> Trim(UnitsOf(Scalar(before, k))) == Trim(UnitsOf(Scalar(after, k)))
  }

  lemma NoKeyDiffers(before: Payload, after: Payload)
    ensures Diff(before, after) == [] <==>
            && SameScalars(before, after)
            && !Differs(RecoveryCodes, before, after) && !Differs(CustomFields, before, after)
  {
    DiffNamesTheChanges(before, after);
    NoScalarDiffers(before, after);
    ByKindOfKey(k => Differs(k, before, after));
  }

  lemma NoScalarDiffers(before: Payload, after: Payload)
    ensures SameScalars(before, after) <==> forall k :: IsScalar(k) ==> !Differs(k, before, after)
  {
    forall k | IsScalar(k)
      ensures Differs(k, before, after) <==> Trim(UnitsOf(Scalar(before, k))) != Trim(UnitsOf(Scalar(after, k)))
    {
      ScalarDiffers(k, before, after);
    }
  }

  lemma ByKindOfKey(differs: SecretKey -> bool)
    ensures (forall k :: !differs(k))
       <==> (forall k :: IsScalar(k) ==> !differs(k)) && !differs(RecoveryCodes) && !differs(CustomFields)
  {
  }

  lemma CodePiecesDiffer(before: Payload, after: Payload)
    ensures Differs(RecoveryCodes, before, after)
       <==> CodePieces(ListOf(before.recoveryCodes)) != CodePieces(ListOf(after.recoveryCodes))
  {
    AbsentListsAreEmpty(before);
    AbsentListsAreEmpty(after);
    CodesCompareExactlyWhen(ListOf(before.recoveryCodes), ListOf(after.recoveryCodes));
  }

  lemma LinePiecesDiffer(before: Payload, after: Payload)
    ensures Differs(CustomFields, before, after)
       <==> LinePieces(ListOf(before.customFields)) != LinePieces(ListOf(after.customFields))
  {
    AbsentListsAreEmpty(before);
    AbsentListsAreEmpty(after);
    BagsAgreeExactlyWhen(ListOf(before.customFields), ListOf(after.customFields));
  }

  /** Trimmed texts, codes cut at their bars and sorted lines cut at their breaks all agree. */
  ghost predicate ReadsTheSame(before: Payload, after: Payload) {
    && SameScalars(before, after)
    && CodePieces(ListOf(before.recoveryCodes)) == CodePieces(ListOf(after.recoveryCodes))
    && LinePieces(ListOf(before.customFields)) == LinePieces(ListOf(after.customFields))
  }

  /**
   * For plain payloads the diff is empty exactly when the secrets are the same, so an edit loses nothing but white
   * space around texts, the order of fields, and security answers.
   */
  lemma PlainDiffIsEmptyExactlyWhen(before: Payload, after: Payload)
    requires Plain(before) && Plain(after)
    ensures Diff(before, after) == [] <==> SameSecrets(before, after)
  {
    NoKeyDiffers(before, after);
    CodesDiffer(before, after);
    FieldsDiffer(before, after);
  }

  lemma CodesDiffer(before: Payload, after: Payload)
    requires Plain(before) && Plain(after)
    ensures Differs(RecoveryCodes, before, after)
       <==> TrimmedAll(ListOf(before.recoveryCodes)) != TrimmedAll(ListOf(after.recoveryCodes))
  {
    AbsentListsAreEmpty(before);
    AbsentListsAreEmpty(after);
    CodesCompareLists(ListOf(before.recoveryCodes), ListOf(after.recoveryCodes));
  }

  lemma FieldsDiffer(before: Payload, after: Payload)
    requires Plain(before) && Plain(after)
    ensures Differs(CustomFields, before, after)
       <==> multiset(AllTrimmed(ListOf(before.customFields))) != multiset(AllTrimmed(ListOf(after.customFields)))
  {
    AbsentListsAreEmpty(before);
    AbsentListsAreEmpty(after);
    BagsCompareFields(ListOf(before.customFields), ListOf(after.customFields));
  }

  /** Two code lists can print alike: one code with a bar in it, and the two codes on either side of it. */
  lemma SplitCodeCanBeMissed()
    ensures Codes(Given([Text([0x61, 0x7C, 0x62])])) == Codes(Given([Text([0x61]), Text([0x62])]))
  {
    var x: CodeUnit, y: CodeUnit := 0x61, 0x62;
    var joined, split := [Text([x, PIPE, y])], [Text([x]), Text([y])];
    assert TrimmedAll(joined) == joined && TrimmedAll(split) == split;
    assert split[1..] == [Text([y])];
    assert PartsOf(split) == More([x], One([y]));
    assert Codes(Given(joined)) == [x, PIPE, y];
    assert Join(One([y]), PIPE) == [y];
    assert Codes(Given(split)) == [x] + [PIPE] + [y];
  }
}
