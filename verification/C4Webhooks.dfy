/** Loganne's webhook configuration: event-to-consumer edges and divergences for unknown targets. */
module C4Webhooks {
  import opened C4Routing
  import opened C4Producers
  import opened Sorting
  import opened Wrappers

  datatype AsyncEdge = AsyncEdge(event: string, consumer: string)

  /** A configuration value: a list of URLs, or anything else. */
  datatype Entry = Urls(urls: seq<string>) | Other

  const CONSUMER_TOKENS: string := "consumerTokens"

  // ---- The host of a webhook URL ----

  /** What follows the first c. */
  function After(c: char, s: string): Option<string> {
    if s == [] then None else if s[0] == c then Some(s[1..]) else After(c, s[1..])
  }

  function UpToSlash(s: string): string {
    if s == [] || s[0] == '/' then [] else [s[0]] + UpToSlash(s[1..])
  }

  /** The third part of the URL when it is split at its first three slashes. */
  function Host(url: string): Option<string> {
    match After('/', url)
    case None => None
    case Some(rest) => match After('/', rest)
      case None => None
      case Some(tail) => Some(UpToSlash(tail))
  }

  lemma {:induction false} AfterSkips(c: char, head: string, tail: string)
    requires c !in head
    ensures After(c, head + [c] + tail) == Some(tail)
  {
    if head == [] {
      assert head + [c] + tail == [c] + tail;
    } else {
      AfterSkips(c, head[1..], tail);
      assert (head + [c] + tail)[1..] == head[1..] + [c] + tail;
    }
  }

  lemma {:induction false} UpToSlashStops(head: string, tail: string)
    requires '/' !in head && (tail == [] || tail[0] == '/')
    ensures UpToSlash(head + tail) == head
  {
    if head == [] {
      assert head + tail == tail;
    } else {
      UpToSlashStops(head[1..], tail);
      assert (head + tail)[1..] == head[1..] + tail;
    }
  }

  /** A scheme, two slashes, a host and any path: the host comes back, port and all. */
  lemma HostOfUrl(scheme: string, host: string, path: string)
    requires '/' !in scheme && '/' !in host && (path == [] || path[0] == '/')
    ensures Host(scheme + "//" + host + path) == Some(host)
  {
    var url := scheme + "//" + host + path;
    assert url == scheme + "/" + ("/" + host + path);
    AfterSkips('/', scheme, "/" + host + path);
    assert "/" + host + path == [] + "/" + (host + path);
    AfterSkips('/', [], host + path);
    UpToSlashStops(host, path);
  }

  // ---- Divergences ----

  const TARGET_ID: string := ID_PREFIX + "loganne-webhook-target-"

  function TargetId(event: string, host: string): string {
    TARGET_ID + DslIdent(event) + "-" + DslIdent(host)
  }

  function TargetMessage(event: string, host: string): string {
    "- loganne event `" + event + "` -> `" + host + "` has no matching configy system"
  }

  function TargetDivergence(org: string, event: string, host: string): Divergence {
    Divergence(org + "/lucos_loganne", TargetId(event, host), TargetMessage(event, host))
  }

  /** The ID tells apart the identifiers of the event and of the host. */
  lemma TargetIdTells(event: string, host: string, event': string, host': string)
    ensures TargetId(event, host) == TargetId(event', host') <==>
      DslIdent(event) == DslIdent(event') && DslIdent(host) == DslIdent(host')
  {
    if TargetId(event, host) == TargetId(event', host') {
      DslIdentCollides(event, event);
      DslIdentCollides(event', event');
      var a := DslIdent(event) + "-" + DslIdent(host);
      var b := DslIdent(event') + "-" + DslIdent(host');
      assert TargetId(event, host) == TARGET_ID + a;
      assert TargetId(event', host') == TARGET_ID + b;
      assert a == TargetId(event, host)[|TARGET_ID|..] == b;
      AfterSkips('-', DslIdent(event), DslIdent(host));
      AfterSkips('-', DslIdent(event'), DslIdent(host'));
      assert DslIdent(host) == DslIdent(host');
      assert DslIdent(event) == a[..|event|] && DslIdent(event') == b[..|event|];
    }
  }

  /** Messages of events of the same length tell both the event and the host apart. */
  lemma TargetMessageTells(event: string, host: string, event': string, host': string)
    requires |event| == |event'| && TargetMessage(event, host) == TargetMessage(event', host')
    ensures event == event' && host == host'
  {
    var head, mid, tail := "- loganne event `", "` -> `", "` has no matching configy system";
    var m, n := TargetMessage(event, host), TargetMessage(event', host');
    var e, h := |head|, |head| + |event| + |mid|;
    assert m == head + event + mid + host + tail && n == head + event' + mid + host' + tail;
    assert |m| == h + |host| + |tail| && |n| == h + |host'| + |tail|;
    assert event == m[e..e + |event|] && event' == n[e..e + |event|];
    assert host == m[h..h + |host|] && host' == n[h..h + |host|];
  }

  // ---- The parse ----

  predicate Unknown(url: string, hosts: map<string, string>) {
    Host(url).Some? && Host(url).value !in hosts
  }

  function AddTarget(divs: seq<Divergence>, event: string, url: string, hosts: map<string, string>, org: string): seq<Divergence> {
    if Unknown(url, hosts) && TargetId(event, Host(url).value) !in Ids(divs)
    then divs + [TargetDivergence(org, event, Host(url).value)]
    else divs
  }

  function AddTargets(divs: seq<Divergence>, event: string, urls: seq<string>, hosts: map<string, string>, org: string): seq<Divergence>
    decreases |urls|
  {
    if urls == [] then divs
    else AddTargets(AddTarget(divs, event, urls[0], hosts, org), event, urls[1..], hosts, org)
  }

  /** The URLs listed for an event: none for the token table or a value that is not a list. */
  function Listed(entries: map<string, Entry>, event: string): seq<string> {
    if event in entries && event != CONSUMER_TOKENS && entries[event].Urls? then entries[event].urls else []
  }

  function AllTargets(divs: seq<Divergence>, order: seq<string>, entries: map<string, Entry>, hosts: map<string, string>, org: string): seq<Divergence>
    decreases |order|
  {
    if order == [] then divs
    else AllTargets(AddTargets(divs, order[0], Listed(entries, order[0]), hosts, org), order[1..], entries, hosts, org)
  }

  predicate Resolves(url: string, hosts: map<string, string>, consumer: string) {
    Host(url).Some? && Host(url).value in hosts && hosts[Host(url).value] == consumer
  }

  function UrlEdge(event: string, url: string, hosts: map<string, string>): seq<AsyncEdge> {
    match Host(url)
    case Some(host) => if host in hosts then [AsyncEdge(event, hosts[host])] else []
    case None => []
  }

  function EventEdges(event: string, urls: seq<string>, hosts: map<string, string>): seq<AsyncEdge> {
    if urls == [] then [] else UrlEdge(event, urls[0], hosts) + EventEdges(event, urls[1..], hosts)
  }

  function AllEdges(order: seq<string>, entries: map<string, Entry>, hosts: map<string, string>): seq<AsyncEdge> {
    if order == [] then []
    else EventEdges(order[0], Listed(entries, order[0]), hosts) + AllEdges(order[1..], entries, hosts)
  }

  predicate AsyncLe(a: AsyncEdge, b: AsyncEdge) {
    PairLe(a.consumer, a.event, b.consumer, b.event)
  }

  lemma AsyncLeIsPreorder()
    ensures Preorder(AsyncLe)
    ensures forall a, b :: AsyncLe(a, b) && AsyncLe(b, a) ==> a == b
  {
    hide PairLe;
    forall x: AsyncEdge, y: AsyncEdge ensures AsyncLe(x, y) || AsyncLe(y, x) {
      PairLeLaws(x.consumer, x.event, y.consumer, y.event, "", "");
    }
    forall x, y | AsyncLe(x, y) && AsyncLe(y, x) ensures x == y {
      PairLeLaws(x.consumer, x.event, y.consumer, y.event, "", "");
    }
    forall x, y, z | AsyncLe(x, y) && AsyncLe(y, z) ensures AsyncLe(x, z) {
      PairLeLaws(x.consumer, x.event, y.consumer, y.event, z.consumer, z.event);
    }
  }

  /** What the routine may return when the entries happen to be visited in this order. */
  ghost predicate MayReturn(order: seq<string>, entries: map<string, Entry>, hosts: map<string, string>, org: string,
      edges: seq<AsyncEdge>, divs: seq<Divergence>)
  {
    Sorts(edges, AllEdges(order, entries, hosts), AsyncLe) && Sorts(divs, AllTargets([], order, entries, hosts, org), MessageLe)
  }

  datatype Config = Unparseable(reason: string) | Parsed(entries: map<string, Entry>)

  /** One text in two literals: the verifier reads a character off a short literal only. */
  const UNPARSEABLE_HEAD: string := "- failed" + " to parse loganne webhooks-config.json: "

  function UnparseableDivergence(org: string, reason: string): Divergence {
    Divergence(org + "/lucos_loganne", ID_PREFIX + "loganne-webhooks-config-unparseable",
      UNPARSEABLE_HEAD + reason)
  }

  method ParseLoganneWebhooks(config: Config, hosts: map<string, string>, org: string, order: seq<string>)
    returns (edges: seq<AsyncEdge>, divs: seq<Divergence>)
    requires config.Parsed? ==> Enumerates(order, config.entries.Keys)
    ensures config.Unparseable? ==> edges == [] && divs == [UnparseableDivergence(org, config.reason)]
    ensures config.Parsed? ==> MayReturn(order, config.entries, hosts, org, edges, divs)
  {
    hide AllEdges, AllTargets, AsyncLe, MessageLe;
    match config
    case Unparseable(reason) =>
      edges, divs := [], [UnparseableDivergence(org, reason)];
    case Parsed(entries) =>
      AsyncLeIsPreorder();
      MessageLeIsPreorder();
      var unsortedEdges, unsortedDivs := CollectWebhooks(entries, hosts, org, order);
      edges := SortSlice(unsortedEdges, AsyncLe);
      divs := SortSlice(unsortedDivs, MessageLe);
  }

  method CollectWebhooks(entries: map<string, Entry>, hosts: map<string, string>, org: string, order: seq<string>)
    returns (edges: seq<AsyncEdge>, divs: seq<Divergence>)
    requires forall e :: e in order ==> e in entries
    ensures edges == AllEdges(order, entries, hosts)
    ensures divs == AllTargets([], order, entries, hosts, org)
  {
    hide AddTargets, EventEdges, Ids, Unknown;
    edges, divs := [], [];
    var seen: set<string> := {};
    NothingListed(divs, "", hosts, org);
    for i := 0 to |order|
      invariant AllEdges(order, entries, hosts) == edges + AllEdges(order[i..], entries, hosts)
      invariant AllTargets([], order, entries, hosts, org) == AllTargets(divs, order[i..], entries, hosts, org)
      invariant seen == Ids(divs)
    {
      OrderStep(order, i, entries, hosts, org, divs);
      hide AllEdges, AllTargets;
      var event := order[i];
      if event != CONSUMER_TOKENS && entries[event].Urls? {
        edges, divs, seen := CollectEvent(edges, divs, seen, event, entries[event].urls, hosts, org);
      } else {
        NothingListed(divs, event, hosts, org);
      }
    }
  }

  lemma OrderStep(order: seq<string>, i: nat, entries: map<string, Entry>, hosts: map<string, string>, org: string, divs: seq<Divergence>)
    requires i < |order|
    ensures AllEdges(order[i..], entries, hosts) ==
      EventEdges(order[i], Listed(entries, order[i]), hosts) + AllEdges(order[i + 1..], entries, hosts)
    ensures AllTargets(divs, order[i..], entries, hosts, org) ==
      AllTargets(AddTargets(divs, order[i], Listed(entries, order[i]), hosts, org), order[i + 1..], entries, hosts, org)
  {
    hide AddTargets, EventEdges, Listed;
    assert order[i..][1..] == order[i + 1..];
  }

  lemma NothingListed(divs: seq<Divergence>, event: string, hosts: map<string, string>, org: string)
    ensures AddTargets(divs, event, [], hosts, org) == divs && EventEdges(event, [], hosts) == []
    ensures Ids([]) == {}
  {
  }

  method CollectEvent(edges0: seq<AsyncEdge>, divs0: seq<Divergence>, seen0: set<string>, event: string, urls: seq<string>,
      hosts: map<string, string>, org: string) returns (edges: seq<AsyncEdge>, divs: seq<Divergence>, seen: set<string>)
    requires seen0 == Ids(divs0)
    ensures edges == edges0 + EventEdges(event, urls, hosts)
    ensures divs == AddTargets(divs0, event, urls, hosts, org)
    ensures seen == Ids(divs)
  {
    hide Host, TargetId, AddTarget, UrlEdge, Ids;
    edges, divs, seen := edges0, divs0, seen0;
    for j := 0 to |urls|
      invariant edges0 + EventEdges(event, urls, hosts) == edges + EventEdges(event, urls[j..], hosts)
      invariant AddTargets(divs0, event, urls, hosts, org) == AddTargets(divs, event, urls[j..], hosts, org)
      invariant seen == Ids(divs)
    {
      assert urls[j..][1..] == urls[j + 1..];
      edges, divs, seen := CollectTarget(edges, divs, seen, event, urls[j], hosts, org);
    }
  }

  method CollectTarget(edges0: seq<AsyncEdge>, divs0: seq<Divergence>, seen0: set<string>, event: string, url: string,
      hosts: map<string, string>, org: string) returns (edges: seq<AsyncEdge>, divs: seq<Divergence>, seen: set<string>)
    requires seen0 == Ids(divs0)
    ensures edges == edges0 + UrlEdge(event, url, hosts)
    ensures divs == AddTarget(divs0, event, url, hosts, org)
    ensures seen == Ids(divs)
  {
    hide TargetId;
    edges, divs, seen := edges0, divs0, seen0;
    var host := Host(url);
    if host.Some? {
      if host.value in hosts {
        edges := edges + [AsyncEdge(event, hosts[host.value])];
      } else {
        var id := TargetId(event, host.value);
        if id !in seen {
          seen := seen + {id};
          divs := divs + [TargetDivergence(org, event, host.value)];
        }
      }
    }
  }
}
