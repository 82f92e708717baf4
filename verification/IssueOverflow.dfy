/** A repo with more open issues than one page: a concrete duplicate. */
module IssueOverflow {
  import opened IssueTitles
  import opened IssueTracker

  const OLDEST: string := "c4-old"

  function Repeat(n: nat): string {
    seq(n, _ => 'a')
  }

  /** An open issue of the oldest ID, then n younger ones of n other IDs. */
  function Younger(n: nat): seq<Issue> {
    if n == 0 then [Issue(Title(OLDEST, ""), true, true)]
    else Younger(n - 1) + [Issue(Title(Repeat(n), ""), true, true)]
  }

  function IdAt(i: nat): string {
    if i == 0 then OLDEST else Repeat(i)
  }

  lemma {:induction false} YoungerAre(n: nat)
    ensures |Younger(n)| == n + 1
    ensures forall i :: 0 <= i <= n ==> Younger(n)[i] == Issue(Title(IdAt(i), ""), true, true)
  {
    hide Title, Repeat;
    if n > 0 { YoungerAre(n - 1); }
  }

  lemma {:induction false} YoungerListed(n: nat)
    ensures |OpenListed(Younger(n))| == n + 1
    ensures forall k :: 0 <= k <= n ==> OpenListed(Younger(n))[k] == Listed(n - k, Title(IdAt(n - k), ""))
  {
    hide Title, IdAt, OpenListed, Younger;
    YoungerAre(n);
    ListedStep(Younger(n));
    if n > 0 {
      YoungerListed(n - 1);
      YoungerFront(n);
    }
  }

  lemma YoungerFront(n: nat)
    requires n > 0
    ensures Younger(n)[..|Younger(n)| - 1] == Younger(n - 1)
  {
    hide Title, Repeat;
  }

  lemma ListedStep(issues: seq<Issue>)
    requires issues != [] && issues[|issues| - 1].Tracked()
    ensures var last := |issues| - 1;
      OpenListed(issues) == [Listed(last, issues[last].title)] + OpenListed(issues[..last])
    ensures |issues| == 1 ==> OpenListed(issues[..0]) == []
  {
  }

  lemma IdsApart(i: nat, j: nat)
    requires i != j
    ensures IdAt(i) != IdAt(j)
  {
    assert OLDEST[0] == 'c';
    assert i > 0 ==> Repeat(i)[0] == 'a' && |Repeat(i)| == i;
    assert j > 0 ==> Repeat(j)[0] == 'a' && |Repeat(j)| == j;
  }

  lemma IdAtReads(i: nat)
    ensures ColonFree(IdAt(i)) && IdFromTitle(Title(IdAt(i), "")) == IdAt(i) && Raised(Title(IdAt(i), ""))
  {
    TitleRoundTrip(IdAt(i), "");
    TitleGivesCut(IdAt(i), "");
  }

  lemma YoungerIsTidy(n: nat)
    ensures OnePerId(Younger(n)) && AllRaised(Younger(n)) && OLDEST in OpenIds(Younger(n))
  {
    hide IdFromTitle, Title, IdAt, Raised;
    YoungerAre(n);
    forall i | 0 <= i <= n ensures IdFromTitle(Younger(n)[i].title) == IdAt(i) && Raised(Younger(n)[i].title) {
      IdAtReads(i);
    }
    forall i, j | 0 <= i < j <= n ensures IdFromTitle(Younger(n)[i].title) != IdFromTitle(Younger(n)[j].title) {
      IdsApart(i, j);
    }
    assert IdAt(0) == OLDEST by { OldestIsFirst(); }
    assert Younger(n)[0].Tracked();
  }

  lemma OldestIsFirst()
    ensures IdAt(0) == OLDEST && ColonFree(OLDEST)
  {
  }

  /** With a hundred younger issues the oldest is off the page: an acknowledged Ensure of its ID raises
      a second one. */
  lemma HundredYoungerDuplicate()
    ensures OnePerId(Younger(100))
    ensures !OnePerId(EnsureStep(Younger(100), OLDEST, "", Good, Good).0)
  {
    hide EnsureStep, OpenListed, Younger, IdAt, Prefix, Title, OnePerId, AllRaised, OpenIds;
    var issues := Younger(PER_PAGE);
    YoungerIsTidy(PER_PAGE);
    YoungerListed(PER_PAGE);
    OldestIsFirst();
    var page := Page(issues);
    var k := FirstMatch(page, Prefix(OLDEST));
    if k < |page| {
      assert page[k] == OpenListed(issues)[k] == Listed(PER_PAGE - k, Title(IdAt(PER_PAGE - k), ""));
      NoMatch(PER_PAGE - k);
    }
    EnsureDuplicatesOffPage(issues, OLDEST, "");
  }

  lemma NoMatch(i: nat)
    requires i > 0
    ensures !(Prefix(OLDEST) <= Title(IdAt(i), ""))
  {
    hide Prefix, Title, IdFromTitle;
    IdAtReads(i);
    OldestIsFirst();
    IdsApart(0, i);
    PrefixFindsItsId(OLDEST, Title(IdAt(i), ""));
  }
}
