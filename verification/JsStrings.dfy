/** JavaScript strings: sequences of UTF-16 code units, and the small helpers every module shares. */
module JsStrings {
  type CodeUnit = u: nat | u < 0x1_0000

  type JsString = seq<CodeUnit>

  /** A string held as one value, for use inside collections. */
  datatype Text = Text(units: JsString)

  datatype Option<+T> = None | Some(value: T)

  /** Concatenates a sequence of sequences, in order. */
  function Flatten<T>(parts: seq<seq<T>>): seq<T> {
    if parts == [] then [] else Flatten(parts[..|parts| - 1]) + parts[|parts| - 1]
  }

  lemma FlattenSnoc<T>(parts: seq<seq<T>>, last: seq<T>)
    ensures Flatten(parts + [last]) == Flatten(parts) + last
  {
    assert (parts + [last])[..|parts|] == parts;
  }

  lemma ConcatAssoc<T>(a: seq<T>, b: seq<T>, c: seq<T>)
    ensures a + b + c == a + (b + c)
  {
  }

  lemma DropLeft<T>(a: seq<T>, b: seq<T>, k: nat)
    requires k <= |a|
    ensures (a + b)[k..] == a[k..] + b
  {
  }

  lemma CutAt<T>(s: seq<T>, i: nat)
    requires i < |s|
    ensures s == s[..i] + [s[i]] + s[i + 1..]
  {
  }

  /** White space as `trim` and the pattern `\s` see it. */
  predicate IsSpace(u: CodeUnit) {
    || 9 <= u <= 13
    || u in {0x20, 0xA0, 0x1680, 0x2028, 0x2029, 0x202F, 0x205F, 0x3000, 0xFEFF}
    || 0x2000 <= u <= 0x200A
  }

  /** Sections 12.2 and 12.3 of ECMA-262: tabs, the space separators of Unicode, the byte order mark and line ends. */
  lemma SpacesAreWhiteSpaceAndLineEnds(u: CodeUnit)
    ensures var tabs, lineEnds := {0x09, 0x0B, 0x0C, 0xFEFF}, {0x0A, 0x0D, 0x2028, 0x2029};
            var separator := u in {0x20, 0xA0, 0x1680, 0x202F, 0x205F, 0x3000} || 0x2000 <= u <= 0x200A;
            IsSpace(u) <==> u in tabs || separator || u in lineEnds
  {
  }

  predicate IsBlank(s: JsString) {
    forall u :: u in s ==> IsSpace(u)
  }
}
