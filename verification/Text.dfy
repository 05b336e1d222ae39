/** The string normalisation that request fields go through. */
module Text {
  /** White space in the Latin-1 range. */
  predicate IsSpace(c: char) {
    c in {'\t', '\n', '\U{000B}', '\U{000C}', '\r', ' ', '\U{0085}', '\U{00A0}'}
  }

  function TrimLeft(s: string): string {
    if s != [] && IsSpace(s[0]) then TrimLeft(s[1..]) else s
  }

  function TrimRight(s: string): string {
    if s != [] && IsSpace(s[|s| - 1]) then TrimRight(s[..|s| - 1]) else s
  }

  function Trim(s: string): string { TrimRight(TrimLeft(s)) }

  function UpperChar(c: char): char {
    if 'a' <= c <= 'z' then c - 'a' + 'A' else c
  }

  function Upper(s: string): string {
    if s == [] then [] else [UpperChar(s[0])] + Upper(s[1..])
  }

  /** Trimming cuts white space off both ends and nothing else. */
  lemma TrimCutsSpace(s: string) returns (left: string, right: string)
    ensures s == left + Trim(s) + right
    ensures forall c :: c in left + right ==> c == ' ' || '\t' <= c <= '\r' || c == '\U{0085}' || c == '\U{00A0}'
    ensures Trim(s) != "" ==> Trim(s)[0] !in " \t\n\r" && Trim(s)[|Trim(s)| - 1] !in " \t\n\r"
  {
    var l := LeftSpace(s);
    var r := RightSpace(TrimLeft(s));
    left, right := l, r;
    assert s == l + (Trim(s) + r) == l + Trim(s) + r;
  }

  lemma LeftSpace(s: string) returns (left: string)
    ensures s == left + TrimLeft(s) && forall c :: c in left ==> IsSpace(c)
    ensures TrimLeft(s) != "" ==> !IsSpace(TrimLeft(s)[0])
  {
    left := "";
    if s != [] && IsSpace(s[0]) {
      var rest := LeftSpace(s[1..]);
      left := [s[0]] + rest;
      assert s == [s[0]] + s[1..];
    }
  }

  lemma RightSpace(s: string) returns (right: string)
    ensures s == TrimRight(s) + right && forall c :: c in right ==> IsSpace(c)
    ensures TrimRight(s) != "" ==> !IsSpace(TrimRight(s)[|TrimRight(s)| - 1]) && TrimRight(s)[0] == s[0]
  {
    right := "";
    if s != [] && IsSpace(s[|s| - 1]) {
      var rest := RightSpace(s[..|s| - 1]);
      right := rest + [s[|s| - 1]];
      assert s == s[..|s| - 1] + [s[|s| - 1]];
    }
  }

  /** Padding with blanks or tabs does not matter. */
  lemma {:induction false} PaddingIsIgnored(left: string, s: string, right: string)
    requires forall c :: c in left + right ==> c == ' ' || c == '\t' || c == '\n'
    requires s != "" && !IsSpace(s[0]) && !IsSpace(s[|s| - 1])
    ensures Trim(left + s + right) == s
    decreases |left| + |right|
  {
    var all := left + s + right;
    if left != "" {
      assert left[0] in left + right;
      assert all[1..] == left[1..] + s + right;
      assert forall c :: c in left[1..] + right ==> c in left + right;
      PaddingIsIgnored(left[1..], s, right);
    } else if right != "" {
      var init := right[..|right| - 1];
      assert right[|right| - 1] in left + right;
      assert all == s + right && all[..|all| - 1] == "" + s + init == s + init;
      assert forall c :: c in "" + init ==> c in left + right;
      PaddingIsIgnored("", s, init);
    } else {
      assert all == s;
    }
  }

  /** Upper-casing moves 'a' to 'z' onto 'A' to 'Z', letter by letter, and leaves everything else. */
  lemma {:induction false} UpperLetterByLetter(s: string, i: nat)
    requires i < |s|
    ensures |Upper(s)| == |s|
    ensures 'a' <= s[i] <= 'z' ==> Upper(s)[i] as int - 'A' as int == s[i] as int - 'a' as int
    ensures !('a' <= s[i] <= 'z') ==> Upper(s)[i] == s[i]
  {
    if |s| > 1 {
      UpperLetterByLetter(s[1..], if i == 0 then 0 else i - 1);
    }
  }
}
