/**
 Character-level helpers of utils.cpp, in the "C" locale: case folding and whitespace trimming.
 */
module Text {

  function LowerChar(c: char): char {
    if 'A' <= c <= 'Z' then (c as int + 32) as char else c
  }

  function UpperChar(c: char): char {
    if 'a' <= c <= 'z' then (c as int - 32) as char else c
  }

  function Lower(s: string): (r: string)
    ensures |r| == |s|
  {
    seq(|s|, i requires 0 <= i < |s| => LowerChar(s[i]))
  }

  function Upper(s: string): (r: string)
    ensures |r| == |s|
  {
    seq(|s|, i requires 0 <= i < |s| => UpperChar(s[i]))
  }

  lemma LowerIdempotent(s: string)
    ensures Lower(Lower(s)) == Lower(s)
  {
  }

  /** The same character, or the same letter in the other case. */
  predicate SameLetter(a: char, b: char) {
    a == b || ('A' <= a <= 'Z' && b as int == a as int + 32) || ('A' <= b <= 'Z' && a as int == b as int + 32)
  }

  /** Texts agree in lower case exactly when they agree letter by letter, in whatever case; no capital is left. */
  lemma LowerIff(s: string, t: string)
    ensures Lower(s) == Lower(t) <==> |s| == |t| && forall k :: 0 <= k < |s| ==> SameLetter(s[k], t[k])
    ensures forall k :: 0 <= k < |s| ==> !('A' <= Lower(s)[k] <= 'Z')
  {
    if |s| == |t| {
      if Lower(s) == Lower(t) {
        forall k | 0 <= k < |s| ensures SameLetter(s[k], t[k]) {
          assert LowerChar(s[k]) == Lower(s)[k] == Lower(t)[k] == LowerChar(t[k]);
        }
      }
    }
  }

  /** std::isspace in the "C" locale: space, \t, \n, \v, \f, \r. */
  predicate IsSpace(c: char) {
    c == ' ' || 9 <= c as int <= 13
  }

  /** Exactly the space, tab, newline, vertical tab, form feed and carriage return. */
  lemma IsSpaceIff(c: char)
    ensures IsSpace(c) <==> c in [' ', '\t', '\n', 11 as char, 12 as char, '\r']
  {
  }

  predicate AllSpace(s: string) {
    forall i :: 0 <= i < |s| ==> IsSpace(s[i])
  }

  predicate NoSpace(s: string) {
    forall i :: 0 <= i < |s| ==> !IsSpace(s[i])
  }

  /** No whitespace at either end. */
  predicate Trimmed(s: string) {
    s != "" ==> !IsSpace(s[0]) && !IsSpace(s[|s| - 1])
  }

  function Trim(s: string): string {
    if s == "" then s
    else if IsSpace(s[0]) then Trim(s[1..])
    else if IsSpace(s[|s| - 1]) then Trim(s[..|s| - 1])
    else s
  }

  /** Whatever is padded around a trimmed text, trimming finds the text again, and nothing else. */
  lemma {:induction false} TrimPadded(a: string, core: string, b: string)
    requires AllSpace(a) && AllSpace(b) && Trimmed(core)
    ensures Trim(a + core + b) == core
    decreases |a| + |b|
  {
    var s := a + core + b;
    if a != "" {
      assert s[1..] == a[1..] + core + b;
      TrimPadded(a[1..], core, b);
    } else if b != "" {
      assert s[|s| - 1] == b[|b| - 1];
      if core == "" {
        assert s == b;
        assert s[1..] == a + core + b[1..];
        TrimPadded(a, core, b[1..]);
      } else {
        assert s[..|s| - 1] == a + core + b[..|b| - 1];
        TrimPadded(a, core, b[..|b| - 1]);
      }
    } else {
      assert s == core;
    }
  }

  /** The two scanning loops of trim. */
  method TrimText(value: string) returns (out: string)
    ensures out == Trim(value)
    ensures Trimmed(out)
    ensures exists a, b :: AllSpace(a) && AllSpace(b) && value == a + out + b
  {
    var begin, end := 0, |value|;
    while begin != end && IsSpace(value[begin])
      invariant 0 <= begin <= end
      invariant AllSpace(value[..begin])
    {
      begin := begin + 1;
    }
    while begin != end && IsSpace(value[end - 1])
      invariant begin <= end <= |value|
      invariant AllSpace(value[end..])
      invariant begin < end ==> !IsSpace(value[begin])
    {
      end := end - 1;
    }
    out := value[begin..end];
    assert value == value[..begin] + out + value[end..];
    TrimPadded(value[..begin], out, value[end..]);
  }
}
