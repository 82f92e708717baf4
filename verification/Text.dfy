/** The string operations the text scanners are built from. */
module Text {

  /** White space as the trimming functions see it: the Unicode White_Space characters. */
  predicate Space(c: char) {
    || c == ' ' || '\t' <= c <= '\r' || c == '\U{85}' || c == '\U{A0}' || c == '\U{1680}'
    || '\U{2000}' <= c <= '\U{200A}' || c == '\U{2028}' || c == '\U{2029}' || c == '\U{202F}'
    || c == '\U{205F}' || c == '\U{3000}'
  }

  predicate AllSpace(s: string) {
    forall i :: 0 <= i < |s| ==> Space(s[i])
  }

  function TrimLeft(s: string): string {
    if s != [] && Space(s[0]) then TrimLeft(s[1..]) else s
  }

  function TrimRight(s: string): string {
    if s != [] && Space(s[|s| - 1]) then TrimRight(s[..|s| - 1]) else s
  }

  function Trim(s: string): string {
    TrimRight(TrimLeft(s))
  }

  /** Neither starts nor ends with white space. */
  predicate Tight(s: string) {
    s != [] ==> !Space(s[0]) && !Space(s[|s| - 1])
  }

  lemma {:induction false} TrimLeftPadded(pad: string, s: string)
    requires AllSpace(pad) && (s != [] ==> !Space(s[0]))
    ensures TrimLeft(pad + s) == s
  {
    if pad == [] {
      assert pad + s == s;
    } else {
      TrimLeftPadded(pad[1..], s);
      assert (pad + s)[1..] == pad[1..] + s;
    }
  }

  lemma {:induction false} TrimRightPadded(s: string, pad: string)
    requires AllSpace(pad) && (s != [] ==> !Space(s[|s| - 1]))
    ensures TrimRight(s + pad) == s
  {
    if pad == [] {
      assert s + pad == s;
    } else {
      var front := pad[..|pad| - 1];
      TrimRightPadded(s, front);
      assert (s + pad)[..|s + pad| - 1] == s + front;
    }
  }

  /** Trimming takes off exactly the padding. */
  lemma TrimPadded(before: string, s: string, after: string)
    requires AllSpace(before) && AllSpace(after) && Tight(s)
    ensures Trim(before + s + after) == s
  {
    if s == [] {
      assert AllSpace(before + after) && before + s + after == (before + after) + [];
      TrimLeftPadded(before + after, []);
    } else {
      assert before + s + after == before + (s + after);
      TrimLeftPadded(before, s + after);
      TrimRightPadded(s, after);
    }
  }

  lemma {:induction false} TrimLeftSplits(s: string) returns (pad: string)
    ensures s == pad + TrimLeft(s) && AllSpace(pad)
    ensures TrimLeft(s) != [] ==> !Space(TrimLeft(s)[0])
  {
    if s != [] && Space(s[0]) {
      var rest := TrimLeftSplits(s[1..]);
      pad := [s[0]] + rest;
    } else {
      pad := [];
    }
  }

  lemma {:induction false} TrimRightSplits(s: string) returns (pad: string)
    ensures s == TrimRight(s) + pad && AllSpace(pad)
    ensures TrimRight(s) != [] ==> !Space(TrimRight(s)[|TrimRight(s)| - 1])
  {
    if s != [] && Space(s[|s| - 1]) {
      var rest := TrimRightSplits(s[..|s| - 1]);
      pad := rest + [s[|s| - 1]];
    } else {
      pad := [];
    }
  }

  /** Every string is white space, its trimmed text, and white space. */
  lemma TrimSplits(s: string) returns (before: string, after: string)
    ensures s == before + Trim(s) + after && AllSpace(before) && AllSpace(after) && Tight(Trim(s))
  {
    before := TrimLeftSplits(s);
    after := TrimRightSplits(TrimLeft(s));
  }

  lemma TrimmedIsTight(s: string)
    ensures Trim(s) == s <==> Tight(s)
  {
    var before, after := TrimSplits(s);
    if Tight(s) {
      TrimPadded([], s, []);
      assert [] + s + [] == s;
    }
  }

  // ---- Case, for ASCII letters ----

  function UpperChar(c: char): char {
    if 'a' <= c <= 'z' then c - 'a' + 'A' else c
  }

  function LowerChar(c: char): char {
    if 'A' <= c <= 'Z' then c - 'A' + 'a' else c
  }

  function Upper(s: string): string {
    seq(|s|, i requires 0 <= i < |s| => UpperChar(s[i]))
  }

  function Lower(s: string): string {
    seq(|s|, i requires 0 <= i < |s| => LowerChar(s[i]))
  }

  lemma UpperOfSum(a: string, b: string)
    ensures Upper(a + b) == Upper(a) + Upper(b)
  {
  }

  lemma LowerOfSum(a: string, b: string)
    ensures Lower(a + b) == Lower(a) + Lower(b)
  {
  }

  /** Case mapping turns each of the 26 letters into its partner and leaves every other character. */
  lemma CaseExactly(c: char)
    ensures 'A' <= c <= 'Z' ==> 'a' <= LowerChar(c) <= 'z' && UpperChar(LowerChar(c)) == c
    ensures 'a' <= c <= 'z' ==> 'A' <= UpperChar(c) <= 'Z' && LowerChar(UpperChar(c)) == c
    ensures !('A' <= c <= 'Z') ==> LowerChar(c) == c
    ensures !('a' <= c <= 'z') ==> UpperChar(c) == c
    ensures Lower("AMZ") == "amz" && Upper("amz") == "AMZ"
  {
  }

  /** Mapping a text maps each of its characters. */
  lemma CaseOfText(s: string, i: nat)
    requires i < |s|
    ensures |Lower(s)| == |Upper(s)| == |s| && Lower(s)[i] == LowerChar(s[i]) && Upper(s)[i] == UpperChar(s[i])
  {
  }

  /** The white space characters, one by one. */
  lemma SpacesExactly(c: char)
    ensures Space(c) <==> c in {
        '\U{9}', '\U{A}', '\U{B}', '\U{C}', '\U{D}', '\U{20}', '\U{85}', '\U{A0}', '\U{1680}',
        '\U{2000}', '\U{2001}', '\U{2002}', '\U{2003}', '\U{2004}', '\U{2005}', '\U{2006}', '\U{2007}',
        '\U{2008}', '\U{2009}', '\U{200A}', '\U{2028}', '\U{2029}', '\U{202F}', '\U{205F}', '\U{3000}'}
  {
  }

  // ---- Searching ----

  /** sub occurs in s at k. */
  predicate At(s: string, sub: string, k: int) {
    0 <= k <= |s| && sub <= s[k..]
  }

  predicate Contains(s: string, sub: string) {
    exists k :: 0 <= k <= |s| && At(s, sub, k)
  }

  /** The first place where sub occurs; -1 if it does not. */
  function Index(s: string, sub: string): (r: int)
    ensures r >= 0 ==> At(s, sub, r) && forall k :: At(s, sub, k) ==> r <= k
    ensures r < 0 ==> r == -1 && forall k :: !At(s, sub, k)
  {
    IndexFrom(s, sub, 0)
  }

  function IndexFrom(s: string, sub: string, from: nat): (r: int)
    requires from <= |s|
    ensures r >= 0 ==> At(s, sub, r) && from <= r && forall k :: from <= k && At(s, sub, k) ==> r <= k
    ensures r < 0 ==> r == -1 && forall k :: from <= k ==> !At(s, sub, k)
    decreases |s| - from
  {
    if At(s, sub, from) then from else if from == |s| then -1 else IndexFrom(s, sub, from + 1)
  }

  /** The last place where sub occurs; -1 if it does not. */
  function LastIndex(s: string, sub: string): (r: int)
    ensures r >= 0 ==> At(s, sub, r) && forall k :: At(s, sub, k) ==> k <= r
    ensures r < 0 ==> r == -1 && forall k :: !At(s, sub, k)
  {
    LastIndexFrom(s, sub, |s|)
  }

  function LastIndexFrom(s: string, sub: string, from: nat): (r: int)
    requires from <= |s|
    ensures r >= 0 ==> At(s, sub, r) && r <= from && forall k :: k <= from && At(s, sub, k) ==> k <= r
    ensures r < 0 ==> r == -1 && forall k :: k <= from ==> !At(s, sub, k)
  {
    if At(s, sub, from) then from else if from == 0 then -1 else LastIndexFrom(s, sub, from - 1)
  }

  lemma AtReads(s: string, sub: string, k: int)
    ensures At(s, sub, k) <==> 0 <= k && k + |sub| <= |s| && forall i :: 0 <= i < |sub| ==> s[k + i] == sub[i]
  {
    if 0 <= k && k + |sub| <= |s| {
      if forall i :: 0 <= i < |sub| ==> s[k + i] == sub[i] {
        assert s[k..][..|sub|] == sub;
      }
      if sub <= s[k..] {
        forall i | 0 <= i < |sub| ensures s[k + i] == sub[i] {
          assert s[k..][i] == sub[i];
        }
      }
    }
  }

  lemma AtShifted(a: string, s: string, sub: string, k: nat)
    requires k <= |s|
    ensures At(a + s, sub, |a| + k) <==> At(s, sub, k)
  {
    assert (a + s)[|a| + k..] == s[k..];
  }

  lemma AtExtended(s: string, b: string, sub: string, k: nat)
    requires k + |sub| <= |s|
    ensures At(s + b, sub, k) <==> At(s, sub, k)
  {
    AtReads(s + b, sub, k);
    AtReads(s, sub, k);
  }

  // ---- Lines ----

  /** Split at every newline. */
  function Lines(s: string): seq<string> {
    if '\n' !in s then [s]
    else
      var i := FirstNewline(s);
      [s[..i]] + Lines(s[i + 1..])
  }

  function FirstNewline(s: string): (i: nat)
    requires '\n' in s
    ensures i < |s| && s[i] == '\n' && '\n' !in s[..i]
  {
    if s[0] == '\n' then 0 else FirstNewline(s[1..]) + 1
  }

  /** Every line followed by a newline. */
  function Unlines(lines: seq<string>): string {
    if lines == [] then [] else lines[0] + "\n" + Unlines(lines[1..])
  }

  lemma {:induction false} UnlinesOfSum(a: seq<string>, b: seq<string>)
    ensures Unlines(a + b) == Unlines(a) + Unlines(b)
  {
    if a == [] {
      assert a + b == b;
    } else {
      UnlinesOfSum(a[1..], b);
      assert (a + b)[1..] == a[1..] + b;
    }
  }

  lemma UnlinesOfOneMore(lines: seq<string>, line: string)
    ensures Unlines(lines + [line]) == Unlines(lines) + line + "\n"
  {
    UnlinesOfSum(lines, [line]);
    assert [line][1..] == [];
  }

  lemma {:induction false} FirstNewlineAfter(head: string, tail: string)
    requires '\n' !in head
    ensures var s := head + ['\n'] + tail; '\n' in s && FirstNewline(s) == |head|
  {
    var s := head + ['\n'] + tail;
    assert s[|head|] == '\n';
    if head != [] {
      FirstNewlineAfter(head[1..], tail);
      assert s[1..] == head[1..] + ['\n'] + tail;
      assert s[0] == head[0];
    }
  }

  lemma LinesOfFirst(head: string, tail: string)
    requires '\n' !in head
    ensures Lines(head + ['\n'] + tail) == [head] + Lines(tail)
  {
    var s := head + ['\n'] + tail;
    FirstNewlineAfter(head, tail);
    assert s[..|head|] == head && s[|head| + 1..] == tail;
  }

  lemma {:induction false} LinesOfUnlines(lines: seq<string>)
    requires forall l :: l in lines ==> '\n' !in l
    ensures Lines(Unlines(lines)) == lines + [[]]
  {
    hide Lines;
    if lines == [] {
      assert Lines([]) == [[]] by { NoLines(); }
    } else {
      LinesOfFirst(lines[0], Unlines(lines[1..]));
      LinesOfUnlines(lines[1..]);
      assert lines == [lines[0]] + lines[1..];
    }
  }

  /** Splitting leaves no newline in any line, and the lines with newlines between them are the text. */
  lemma {:induction false} LinesExactly(s: string)
    ensures Lines(s) != [] && forall l :: l in Lines(s) ==> '\n' !in l
    ensures Unlines(Lines(s)) == s + "\n"
    decreases |s|
  {
    if '\n' in s {
      var i := FirstNewline(s);
      LinesExactly(s[i + 1..]);
      assert Lines(s)[1..] == Lines(s[i + 1..]);
      assert s == s[..i] + "\n" + s[i + 1..];
    } else {
      assert [s][1..] == [];
    }
  }

  lemma NoLines()
    ensures Lines([]) == [[]]
  {
  }

  // ---- Numbers ----

  /** A natural number in decimal digits. */
  function Decimal(n: nat): string {
    if n < 10 then [('0' as int + n) as char] else Decimal(n / 10) + [('0' as int + n % 10) as char]
  }
}
