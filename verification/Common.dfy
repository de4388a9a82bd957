/** Shared value types and small facts about sequences. */
module Common {

  datatype Option<+T> = None | Some(value: T)

  /** No element occurs twice. */
  ghost predicate NoDuplicates<T>(s: seq<T>) {
    forall i, j :: 0 <= i < j < |s| ==> s[i] != s[j]
  }

  // ----- surrounding blanks, as Python strips them

  predicate IsSpace(c: char) {
    '\t' <= c <= '\r' || '\U{1c}' <= c <= ' ' || c == '\U{85}' || c == '\U{a0}' || c == '\U{1680}' ||
    '\U{2000}' <= c <= '\U{200a}' || c == '\U{2028}' || c == '\U{2029}' || c == '\U{202f}' ||
    c == '\U{205f}' || c == '\U{3000}'
  }

  /** Spaces, tabs and line breaks are blanks; letters, digits and signs are not. */
  lemma BlanksAre(c: char)
    ensures c in {' ', '\t', '\n', '\r', '\U{b}', '\U{c}', '\U{a0}', '\U{2003}', '\U{3000}'} ==> IsSpace(c)
    ensures '!' <= c <= '~' ==> !IsSpace(c)
  {
  }

  function StripLeft(s: string): (r: string)
    ensures r != [] ==> !IsSpace(r[0])
    ensures |r| <= |s| && r == s[|s| - |r|..]
  {
    if s == [] then [] else if IsSpace(s[0]) then StripLeft(s[1..]) else s
  }

  function StripRight(s: string): (r: string)
    ensures r != [] ==> !IsSpace(r[|r| - 1])
    ensures r <= s
  {
    if s == [] then [] else if IsSpace(s[|s| - 1]) then StripRight(s[..|s| - 1]) else s
  }

  function Strip(s: string): string {
    StripRight(StripLeft(s))
  }

  /** Some character is more than a blank. */
  predicate SaysSomething(s: string) {
    exists i :: 0 <= i < |s| && !IsSpace(s[i])
  }

  lemma {:induction false} StripLeftBlank(s: string, i: nat)
    requires i < |s| - |StripLeft(s)|
    ensures IsSpace(s[i])
  {
    if i > 0 {
      StripLeftBlank(s[1..], i - 1);
    }
  }

  lemma {:induction false} StripRightBlank(s: string)
    ensures forall i :: |StripRight(s)| <= i < |s| ==> IsSpace(s[i])
  {
    if s != [] && IsSpace(s[|s| - 1]) {
      StripRightBlank(s[..|s| - 1]);
    }
  }

  lemma StripIsSlice(s: string) returns (from: nat)
    ensures from + |Strip(s)| <= |s| && Strip(s) == s[from..from + |Strip(s)|]
    ensures forall i :: 0 <= i < from ==> IsSpace(s[i])
    ensures forall i :: from + |Strip(s)| <= i < |s| ==> IsSpace(s[i])
  {
    var left := StripLeft(s);
    from := |s| - |left|;
    forall i | 0 <= i < from ensures IsSpace(s[i]) {
      StripLeftBlank(s, i);
    }
    StripRightBlank(left);
    SliceOfTail(s, from, left, StripRight(left));
  }

  lemma SliceOfTail(s: string, from: nat, tail: string, part: string)
    requires from <= |s| && tail == s[from..] && part <= tail
    requires forall i :: |part| <= i < |tail| ==> IsSpace(tail[i])
    ensures part == s[from..from + |part|]
    ensures forall i :: from + |part| <= i < |s| ==> IsSpace(s[i])
  {
    forall i | from + |part| <= i < |s| ensures IsSpace(s[i]) {
      assert s[i] == tail[i - from];
    }
  }

  lemma StripEnds(s: string)
    ensures Strip(s) != "" ==> !IsSpace(Strip(s)[0]) && !IsSpace(Strip(s)[|Strip(s)| - 1])
  {
    var left := StripLeft(s);
    if StripRight(left) != [] {
      assert StripRight(left)[0] == left[0];
    }
  }

  /**
   * Stripping takes blanks off both ends and nothing else: what is left begins and ends with no blank, blanks surround
   * it, and it is empty exactly when there was nothing but blanks.
   */
  lemma StripTakesBlanks(s: string) returns (from: nat)
    ensures from + |Strip(s)| <= |s| && Strip(s) == s[from..from + |Strip(s)|]
    ensures forall i :: 0 <= i < from ==> IsSpace(s[i])
    ensures forall i :: from + |Strip(s)| <= i < |s| ==> IsSpace(s[i])
    ensures Strip(s) != "" ==> !IsSpace(Strip(s)[0]) && !IsSpace(Strip(s)[|Strip(s)| - 1])
    ensures Strip(s) == "" <==> !SaysSomething(s)
  {
    from := StripIsSlice(s);
    StripEnds(s);
    if Strip(s) != "" {
      assert s[from] == Strip(s)[0];
    }
  }
}
