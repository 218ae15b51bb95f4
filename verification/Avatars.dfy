/**
 * The avatar pointer of one user: uploads, preset switches and removals that interleave at every await and may
 * die between any two of them.
 */
module Avatars {
  /** `avatarKey`: null, `preset:<id>`, or the name of an uploaded object. */
  datatype Pointer = NoAvatar | Preset(id: nat) | Object(key: nat)

  datatype Kind = Upload | Choose(preset: nat) | Remove

  /** storage.upload: stored, stored but the call threw, or not stored. */
  datatype StoreOutcome = Stored | StoredButThrew | NotStored

  /** setAvatar / clearAvatar: the row update and the re-read that follows it both went well, the update failed,
      or the update landed and the call threw all the same. */
  datatype WriteOutcome = Written | NotWritten | WrittenButThrew

  /** Where one request is. */
  datatype Pc =
    | Idle
    | Reading(kind: Kind)
    | Storing(prev: Pointer)
    | Writing(kind: Kind, prev: Pointer, key: nat)
    | Retiring(victim: nat)
    | Compensating(victim: nat)

  /** Upload names are fresh: time and a random suffix. `published` is history: the keys ever written to the row. */
  datatype State = State(pointer: Pointer, objects: set<nat>, nextKey: nat, published: set<nat>, pcs: seq<Pc>)

  datatype Step =
    | Begin(w: nat, kind: Kind)
    | Read(w: nat)
    | Store(w: nat, stored: StoreOutcome)
    | Write(w: nat, written: WriteOutcome)
    | Retire(w: nat, deleted: bool)
    | Compensate(w: nat, deleted: bool)
    | Crash(w: nat)

  function Target(kind: Kind, key: nat): Pointer {
    match kind
    case Upload => Object(key)
    case Choose(id) => Preset(id)
    case Remove => NoAvatar
  }

  predicate Enabled(s: State, step: Step) {
    step.w < |s.pcs| &&
    var pc := s.pcs[step.w];
    match step
    case Begin(_, _) => pc.Idle?
    case Read(_) => pc.Reading?
    case Store(_, _) => pc.Storing?
    case Write(_, _) => pc.Writing?
    case Retire(_, _) => pc.Retiring?
    case Compensate(_, _) => pc.Compensating?
    case Crash(_) => true
  }

  function Goto(s: State, w: nat, pc: Pc): State
    requires w < |s.pcs|
  {
    s.(pcs := s.pcs[w := pc])
  }

  function Apply(s: State, step: Step): State
    requires Enabled(s, step)
  {
    var w := step.w;
    match step
    case Begin(_, kind) => Goto(s, w, Reading(kind))
    case Read(_) =>
      var kind := s.pcs[w].kind;
      Goto(s, w, if kind.Upload? then Storing(s.pointer) else Writing(kind, s.pointer, 0))
    case Store(_, stored) =>
      var key := s.nextKey;
      var s' := s.(nextKey := key + 1, objects := if stored.NotStored? then s.objects else s.objects + {key});
      Goto(s', w, if stored.Stored? then Writing(Upload, s.pcs[w].prev, key) else Idle)
    case Write(_, written) =>
      var Writing(kind, prev, key) := s.pcs[w];
      var s' := if written.NotWritten? then s
                else s.(pointer := Target(kind, key),
                        published := if kind.Upload? then s.published + {key} else s.published);
      Goto(s', w, if written.Written? then (if prev.Object? then Retiring(prev.key) else Idle)
                  else if kind.Upload? then Compensating(key) else Idle)
    case Retire(_, deleted) =>
      Goto(if deleted then s.(objects := s.objects - {s.pcs[w].victim}) else s, w, Idle)
    case Compensate(_, deleted) =>
      Goto(if deleted then s.(objects := s.objects - {s.pcs[w].victim}) else s, w, Idle)
    case Crash(_) => Goto(s, w, Idle)
  }

  /** Requests all idle, the row names nothing, a preset, or an object that is there. */
  predicate Init(s: State) {
    && (forall w :: 0 <= w < |s.pcs| ==> s.pcs[w] == Idle)
    && Safe(s)
    && (s.pointer.Object? ==> s.pointer.key < s.nextKey && s.published == {s.pointer.key})
    && (!s.pointer.Object? ==> s.published == {})
  }

  predicate Safe(s: State) {
    s.pointer.Object? ==> s.pointer.key in s.objects
  }

  ghost predicate Run(trace: seq<State>, steps: seq<Step>) {
    && |trace| == |steps| + 1 && Init(trace[0])
    && forall k :: 0 <= k < |steps| ==> Enabled(trace[k], steps[k]) && trace[k + 1] == Apply(trace[k], steps[k])
  }

  // ---------- the one way to a dangling pointer ----------

  /** The key a request made and still may publish or delete. */
  predicate Owns(pc: Pc, key: nat) {
    (pc.Writing? && pc.kind.Upload? && pc.key == key) || (pc.Compensating? && pc.victim == key)
  }

  ghost predicate PcInv(s: State, pc: Pc) {
    && (pc.Writing? && pc.kind.Upload? ==> pc.key < s.nextKey && pc.key in s.objects && pc.key !in s.published)
    && (pc.Compensating? ==> pc.victim < s.nextKey)
    && (pc.Storing? && pc.prev.Object? ==> pc.prev.key in s.published)
    && (pc.Writing? && pc.prev.Object? ==> pc.prev.key in s.published)
    && (pc.Retiring? ==> pc.victim in s.published && s.pointer != Object(pc.victim))
  }

  ghost predicate Inv(s: State) {
    && (forall w :: 0 <= w < |s.pcs| ==> PcInv(s, s.pcs[w]))
    && (forall w, v, key :: 0 <= w < v < |s.pcs| && Owns(s.pcs[w], key) ==> !Owns(s.pcs[v], key))
    && (forall key :: key in s.published ==> key < s.nextKey)
    && (s.pointer.Object? ==> s.pointer.key in s.published)
  }

  lemma StepKeepsOthers(s: State, step: Step, v: nat)
    requires Inv(s) && Enabled(s, step) && v < |s.pcs|
    ensures PcInv(Apply(s, step), Apply(s, step).pcs[v])
  {
    assert PcInv(s, s.pcs[v]) && PcInv(s, s.pcs[step.w]);
    if v != step.w && s.pcs[v].Writing? && s.pcs[v].kind.Upload? {
      assert Owns(s.pcs[v], s.pcs[v].key);
      assert !Owns(s.pcs[step.w], s.pcs[v].key);
    }
  }

  lemma StepKeepsInv(s: State, step: Step)
    requires Inv(s) && Enabled(s, step)
    ensures Inv(Apply(s, step))
  {
    var s' := Apply(s, step);
    forall v | 0 <= v < |s'.pcs| ensures PcInv(s', s'.pcs[v]) {
      StepKeepsOthers(s, step, v);
    }
    assert PcInv(s, s.pcs[step.w]);
    forall w, v, key | 0 <= w < v < |s'.pcs| && Owns(s'.pcs[w], key) ensures !Owns(s'.pcs[v], key) {
      if step.Store? {
        assert PcInv(s, s.pcs[w]) && PcInv(s, s.pcs[v]);
      } else {
        assert Owns(s'.pcs[w], key) ==> Owns(s.pcs[w], key);
        assert Owns(s'.pcs[v], key) ==> Owns(s.pcs[v], key);
      }
    }
  }

  lemma {:induction false} InvAlways(trace: seq<State>, steps: seq<Step>, k: nat)
    requires Run(trace, steps) && k < |trace|
    ensures Inv(trace[k])
  {
    if k == 0 {
    } else {
      InvAlways(trace, steps, k - 1);
      StepKeepsInv(trace[k - 1], steps[k - 1]);
    }
  }

  /** The compensating delete of a failed upload goes through while the row names that very object. */
  predicate DeletesPublished(s: State, step: Step)
    requires Enabled(s, step)
  {
    step.Compensate? && step.deleted && s.pointer == Object(s.pcs[step.w].victim)
  }

  /** In every run, the pointer starts to dangle exactly at a compensating delete of the object it names. */
  lemma DanglesExactlyWhen(trace: seq<State>, steps: seq<Step>, k: nat)
    requires Run(trace, steps) && k < |steps| && Safe(trace[k])
    ensures !Safe(trace[k + 1]) <==> DeletesPublished(trace[k], steps[k])
  {
    InvAlways(trace, steps, k);
    assert PcInv(trace[k], trace[k].pcs[steps[k].w]);
  }

  /** `setAvatar` throws only when nothing was written. */
  ghost predicate HonestWrites(steps: seq<Step>) {
    forall k :: 0 <= k < |steps| ==> !(steps[k].Write? && steps[k].written.WrittenButThrew?)
  }

  lemma {:induction false} CompensatesOnlyUnpublished(trace: seq<State>, steps: seq<Step>, k: nat, w: nat)
    requires Run(trace, steps) && HonestWrites(steps) && k < |trace| && w < |trace[k].pcs|
    requires trace[k].pcs[w].Compensating?
    ensures trace[k].pcs[w].victim !in trace[k].published
  {
    if k == 0 {
    } else {
      InvAlways(trace, steps, k - 1);
      var s, step := trace[k - 1], steps[k - 1];
      assert PcInv(s, s.pcs[w]) && PcInv(s, s.pcs[step.w]);
      if s.pcs[w].Compensating? && step.w != w {
        CompensatesOnlyUnpublished(trace, steps, k - 1, w);
        assert Owns(s.pcs[w], s.pcs[w].victim);
        assert !Owns(s.pcs[step.w], s.pcs[w].victim);
      }
    }
  }

  /**
   * If a throwing write wrote nothing, then however requests interleave and wherever they die, the stored key is
   * null, a preset, or names an object that exists.
   */
  lemma {:induction false} PointerNeverDangles(trace: seq<State>, steps: seq<Step>, k: nat)
    requires Run(trace, steps) && HonestWrites(steps) && k < |trace|
    ensures Safe(trace[k])
  {
    if k == 0 {
    } else {
      PointerNeverDangles(trace, steps, k - 1);
      DanglesExactlyWhen(trace, steps, k - 1);
      InvAlways(trace, steps, k - 1);
      if steps[k - 1].Compensate? {
        CompensatesOnlyUnpublished(trace, steps, k - 1, steps[k - 1].w);
      }
    }
  }

  /** The hypothesis is needed: one upload whose row update lands before `setAvatar` throws loses the avatar. */
  lemma LostWriteDangles() returns (trace: seq<State>, steps: seq<Step>)
    ensures Run(trace, steps) && |trace| > 0 && !Safe(trace[|trace| - 1])
    ensures forall k :: 0 <= k < |steps| ==> steps[k].w == 0 && !steps[k].Crash?
  {
    var s0 := State(NoAvatar, {}, 0, {}, [Idle]);
    steps := [Begin(0, Upload), Read(0), Store(0, Stored), Write(0, WrittenButThrew), Compensate(0, true)];
    var s1 := State(NoAvatar, {}, 0, {}, [Reading(Upload)]);
    var s2 := State(NoAvatar, {}, 0, {}, [Storing(NoAvatar)]);
    var s3 := State(NoAvatar, {0}, 1, {}, [Writing(Upload, NoAvatar, 0)]);
    var s4 := State(Object(0), {0}, 1, {0}, [Compensating(0)]);
    var s5 := State(Object(0), {}, 1, {0}, [Idle]);
    assert Apply(s4, steps[4]) == s5;
    trace := [s0, s1, s2, s3, s4, s5];
  }

  // ---------- one request alone ----------

  /** What outlives a request: the row, the stored objects and the next free name. */
  datatype Held = Held(pointer: Pointer, objects: set<nat>, nextKey: nat)

  function HeldIn(s: State): Held { Held(s.pointer, s.objects, s.nextKey) }

  /** What the pointer named is deleted, when the delete goes through. */
  function Cleaned(objects: set<nat>, victim: Pointer, deleted: bool): set<nat> {
    if deleted && victim.Object? then objects - {victim.key} else objects
  }

  function Uploaded(b: Held, stored: StoreOutcome, written: WriteOutcome, deleted: bool): Held {
    var key := b.nextKey;
    var objects := if stored.NotStored? then b.objects else b.objects + {key};
    if !stored.Stored? then Held(b.pointer, objects, key + 1)
    else if written.Written? then Held(Object(key), Cleaned(objects, b.pointer, deleted), key + 1)
    else Held(if written.NotWritten? then b.pointer else Object(key), Cleaned(objects, Object(key), deleted), key + 1)
  }

  function Changed(b: Held, target: Pointer, written: WriteOutcome, deleted: bool): Held {
    match written
    case NotWritten => b
    case WrittenButThrew => b.(pointer := target)
    case Written => b.(pointer := target, objects := Cleaned(b.objects, b.pointer, deleted))
  }

  ghost predicate RunsTo(s: State, steps: seq<Step>, s': State)
    decreases |steps|
  {
    if steps == [] then s == s' else Enabled(s, steps[0]) && RunsTo(Apply(s, steps[0]), steps[1..], s')
  }

  lemma {:induction false} RunsOn(s: State, steps: seq<Step>, mid: State, step: Step)
    requires RunsTo(s, steps, mid) && Enabled(mid, step)
    ensures RunsTo(s, steps + [step], Apply(mid, step))
    decreases |steps|
  {
    if steps == [] {
      assert (steps + [step])[1..] == [];
    } else {
      assert (steps + [step])[1..] == steps[1..] + [step];
      RunsOn(Apply(s, steps[0]), steps[1..], mid, step);
    }
  }

  lemma Go(s: State, steps: seq<Step>, mid: State, step: Step) returns (longer: seq<Step>, s': State)
    requires RunsTo(s, steps, mid) && Enabled(mid, step)
    ensures s' == Apply(mid, step) && RunsTo(s, longer, s')
  {
    RunsOn(s, steps, mid, step);
    longer, s' := steps + [step], Apply(mid, step);
  }

  /** A request starts and reads the row. */
  lemma Enter(s: State, w: nat, kind: Kind) returns (steps: seq<Step>, s': State)
    requires w < |s.pcs| && s.pcs[w] == Idle
    ensures RunsTo(s, steps, s')
    ensures s' == Goto(s, w, if kind.Upload? then Storing(s.pointer) else Writing(kind, s.pointer, 0))
  {
    steps, s' := Go(s, [], s, Begin(w, kind));
    steps, s' := Go(s, steps, s', Read(w));
  }

  /** An upload nobody interrupts is a run of the steps, and leaves what the handler leaves. */
  lemma UploadIsARun(s: State, w: nat, stored: StoreOutcome, written: WriteOutcome, deleted: bool)
    returns (steps: seq<Step>, s': State)
    requires w < |s.pcs| && s.pcs[w] == Idle
    ensures RunsTo(s, steps, s') && s'.pcs == s.pcs
    ensures HeldIn(s') == Uploaded(HeldIn(s), stored, written, deleted)
  {
    steps, s' := Enter(s, w, Upload);
    steps, s' := Go(s, steps, s', Store(w, stored));
    if stored.Stored? {
      steps, s' := Go(s, steps, s', Write(w, written));
      if s'.pcs[w].Retiring? {
        steps, s' := Go(s, steps, s', Retire(w, deleted));
      } else if s'.pcs[w].Compensating? {
        steps, s' := Go(s, steps, s', Compensate(w, deleted));
      }
    }
  }

  /** So is a preset switch and a removal. */
  lemma ChangeIsARun(s: State, w: nat, kind: Kind, written: WriteOutcome, deleted: bool)
    returns (steps: seq<Step>, s': State)
    requires w < |s.pcs| && s.pcs[w] == Idle && !kind.Upload?
    ensures RunsTo(s, steps, s') && s'.pcs == s.pcs
    ensures var target := if kind.Choose? then Preset(kind.preset) else NoAvatar;
            HeldIn(s') == Changed(HeldIn(s), target, written, deleted)
  {
    steps, s' := Enter(s, w, kind);
    steps, s' := Go(s, steps, s', Write(w, written));
    if s'.pcs[w].Retiring? {
      steps, s' := Go(s, steps, s', Retire(w, deleted));
    }
  }

  /** A request that dies leaves row and objects as they are, and another can take its place. */
  lemma CrashIsHarmless(s: State, w: nat, kind: Kind)
    requires w < |s.pcs|
    ensures HeldIn(Apply(s, Crash(w))) == HeldIn(s) && Enabled(Apply(s, Crash(w)), Begin(w, kind))
  {
  }

  class AvatarService {
    var pointer: Pointer
    var objects: set<nat>
    var nextKey: nat

    constructor ()
      ensures pointer == NoAvatar && objects == {} && nextKey == 0
    {
      pointer, objects, nextKey := NoAvatar, {}, 0;
    }

    method SetAvatar(target: Pointer, written: WriteOutcome) returns (ok: bool)
      modifies this`pointer
      ensures pointer == if written.NotWritten? then old(pointer) else target
      ensures ok == written.Written?
    {
      if !written.NotWritten? { pointer := target; }
      ok := written.Written?;
    }

    method DeleteByName(key: nat, deleted: bool)
      modifies this`objects
      ensures objects == if deleted then old(objects) - {key} else old(objects)
    {
      if deleted { objects := objects - {key}; }
    }

    function Alone(): State
      reads this
    {
      State(pointer, objects, nextKey, {}, [])
    }

    function Here(): Held
      reads this
    {
      Held(pointer, objects, nextKey)
    }

    /** New object first, then the row, then the old object; an upload that cannot be written is taken back. */
    method UploadAvatar(stored: StoreOutcome, written: WriteOutcome, deleted: bool) returns (ok: bool)
      requires pointer.Object? ==> pointer.key < nextKey
      modifies this
      ensures ok <==> stored.Stored? && written.Written?
      ensures Here() == Uploaded(old(Here()), stored, written, deleted)
      ensures pointer == if stored.Stored? && !written.NotWritten? then Object(old(nextKey)) else old(pointer)
      ensures objects == if stored.NotStored? then old(objects)
                         else if !stored.Stored? then old(objects) + {old(nextKey)}
                         else if !written.Written?
                              then old(objects) + {old(nextKey)} - (if deleted then {old(nextKey)} else {})
                         else old(objects) + {old(nextKey)}
                              - (if deleted && old(pointer).Object? then {old(pointer).key} else {})
      ensures old(Safe(Alone())) ==>
                (Safe(Alone()) <==> !(stored.Stored? && written.WrittenButThrew? && deleted))
      ensures nextKey == old(nextKey) + 1 && (pointer.Object? ==> pointer.key < nextKey)
    {
      var previous := pointer;
      var key := nextKey;
      nextKey := nextKey + 1;
      if !stored.NotStored? { objects := objects + {key}; }
      if !stored.Stored? { return false; }
      ok := SetAvatar(Object(key), written);
      if !ok {
        DeleteByName(key, deleted);
        return;
      }
      if previous.Object? { DeleteByName(previous.key, deleted); }
    }

    method SetAvatarPreset(id: nat, written: WriteOutcome, deleted: bool) returns (ok: bool)
      modifies this`pointer, this`objects
      ensures ok == written.Written?
      ensures Here() == Changed(old(Here()), Preset(id), written, deleted)
      ensures pointer == if written.NotWritten? then old(pointer) else Preset(id)
      ensures objects == if ok && deleted && old(pointer).Object?
                         then old(objects) - {old(pointer).key} else old(objects)
      ensures old(Safe(Alone())) ==> Safe(Alone())
    {
      var previous := pointer;
      ok := SetAvatar(Preset(id), written);
      if ok && previous.Object? { DeleteByName(previous.key, deleted); }
    }

    method DeleteAvatar(written: WriteOutcome, deleted: bool) returns (ok: bool)
      modifies this`pointer, this`objects
      ensures ok == written.Written?
      ensures Here() == Changed(old(Here()), NoAvatar, written, deleted)
      ensures pointer == if written.NotWritten? then old(pointer) else NoAvatar
      ensures objects == if ok && deleted && old(pointer).Object?
                         then old(objects) - {old(pointer).key} else old(objects)
      ensures old(Safe(Alone())) ==> Safe(Alone())
    {
      var previous := pointer;
      ok := SetAvatar(NoAvatar, written);
      if ok && previous.Object? { DeleteByName(previous.key, deleted); }
    }
  }
}
