/** Titles of audit-finding issues, and the ID that is read back from them. */
module IssueTitles {

  const TAG: string := "[Convention] "

  function Title(id: string, description: string): string {
    TAG + id + ": " + description
  }

  /** What an issue title must start with to belong to a convention. */
  function Prefix(id: string): string {
    TAG + id + ":"
  }

  predicate ColonFree(s: string) {
    ':' !in s
  }

  /** The part of s before its first colon; all of s if it has none. */
  function Cut(s: string): (head: string)
    ensures ColonFree(head)
    ensures head <= s
    ensures head == s || head + ":" <= s
  {
    if s == "" || s[0] == ':' then "" else [s[0]] + Cut(s[1..])
  }

  function IdFromTitle(title: string): string {
    Cut(if TAG <= title then title[|TAG|..] else title)
  }

  /** A title with the tag and a colon after it, as every raised issue has. */
  predicate Raised(title: string) {
    TAG <= title && !ColonFree(title[|TAG|..])
  }

  lemma {:induction false} CutStopsAtColon(head: string, rest: string)
    requires ColonFree(head)
    ensures Cut(head + ":" + rest) == head
  {
    var s := head + ":" + rest;
    if head != "" {
      assert s[1..] == head[1..] + ":" + rest;
      CutStopsAtColon(head[1..], rest);
    }
  }

  lemma {:induction false} CutIgnoresTail(s: string, tail: string)
    ensures Cut(s + ":" + tail) == Cut(s)
  {
    var t := s + ":" + tail;
    if s != "" && s[0] != ':' {
      assert t[1..] == s[1..] + ":" + tail;
      CutIgnoresTail(s[1..], tail);
    }
  }

  lemma {:induction false} CutKeepsPrefix(p: string, s: string)
    requires ColonFree(p)
    ensures p <= Cut(s) <==> p <= s
  {
    if p != "" && p <= s {
      CutKeepsPrefix(p[1..], s[1..]);
    }
  }

  lemma CutOfColonFree(s: string)
    requires ColonFree(s)
    ensures Cut(s) == s
  {
    CutStopsAtColon(s, "");
    CutIgnoresTail(s, "");
  }

  lemma TitleGivesCut(id: string, description: string)
    ensures Raised(Title(id, description))
    ensures IdFromTitle(Title(id, description)) == Cut(id)
  {
    var tail := " " + description;
    var rest := id + ":" + tail;
    assert rest[|id|] == ':';
    var title := TAG + rest;
    assert Title(id, description) == title;
    assert title[|TAG|..] == rest;
    CutIgnoresTail(id, tail);
  }

  /** The ID comes back out of the title exactly when it holds no colon. */
  lemma TitleRoundTrip(id: string, description: string)
    ensures IdFromTitle(Title(id, description)) == id <==> ColonFree(id)
  {
    TitleGivesCut(id, description);
    if ColonFree(id) {
      CutOfColonFree(id);
    }
  }

  /** Titles tell both the ID and the description. */
  lemma TitleTells(id: string, description: string, id': string, description': string)
    requires ColonFree(id) && ColonFree(id')
    ensures Title(id, description) == Title(id', description') <==> id == id' && description == description'
  {
    TitleEnds(id, description);
    TitleEnds(id', description');
    TitleRoundTrip(id, description);
    TitleRoundTrip(id', description');
  }

  lemma TitleEnds(id: string, description: string)
    ensures var t := Title(id, description); |t| >= |TAG| + |id| + 2 && t[|TAG| + |id| + 2..] == description
  {
    assert Title(id, description) == (TAG + id + ": ") + description;
  }

  /** As people see it. */
  lemma TitleReads()
    ensures Title("ab", "c d") == "[Convention] ab: c d"
  {
    assert "[Convention] ab: c d"[..13] == TAG;
  }

  /** For a colon-free ID, searching by prefix finds exactly the issues whose title reads back as it. */
  lemma PrefixFindsItsId(id: string, title: string)
    requires ColonFree(id) && Raised(title)
    ensures Prefix(id) <= title <==> IdFromTitle(title) == id
  {
    var rest := title[|TAG|..];
    if Prefix(id) <= title {
      assert id + ":" <= rest by {
        assert forall k :: 0 <= k <= |id| ==> (id + ":")[k] == Prefix(id)[|TAG| + k];
      }
      assert rest == id + ":" + rest[|id| + 1..];
      CutStopsAtColon(id, rest[|id| + 1..]);
    }
    if IdFromTitle(title) == id {
      assert id + ":" <= rest;
      assert title == TAG + rest;
    }
  }

  /** One ID's prefix occurs in another ID's title only if the two are the same, also when one
      is a string prefix of the other. */
  lemma PrefixTellsIdsApart(a: string, b: string, description: string)
    requires ColonFree(a) && ColonFree(b)
    ensures Prefix(a) <= Title(b, description) <==> a == b
  {
    TitleGivesCut(b, description);
    TitleRoundTrip(b, description);
    PrefixFindsItsId(a, Title(b, description));
  }

  /** With a colon allowed in IDs the search confuses them. */
  lemma ColonMakesIdsCollide()
    ensures exists a, b, d :: a != b && ColonFree(a) && Prefix(a) <= Title(b, d)
  {
    var a, b, d := "c4-hook-host", "c4-hook-host:8080", "C4 model divergence";
    assert Prefix(a) <= Title(b, d);
  }
}
