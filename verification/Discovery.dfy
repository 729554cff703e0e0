/**
 * How URLs get into the crawl graph and the frontier.  URL normalisation and host names are given
 * as functions, the clock and the queue priorities as arguments.
 */
module Discovery {
  import opened Wrappers
  import opened Graph
  import opened Frontier

  datatype Delta = Delta(reason: string, nodes: seq<Node>, edges: seq<Edge>)

  /** The kinds of references that pages are searched for are plain words. */
  type EdgeKind = k: string | '|' !in k && k != CONTENT

  const HYPERLINK: EdgeKind := "hyperlink"
  const REDIRECT: EdgeKind := "canonical_redirect"

  const ACTIVATION: string := "activation_threshold"
  const SEED: string := "seed"
  const REDIRECTED: string := "canonical_redirect"
  const CANONICAL: string := "canonical_link"
  const CONTENT_TYPE: string := "content_type"
  const MEMBER: string := "domain_membership"

  /** A reference found in a page. */
  datatype Reference = Reference(url: string, edgeKind: EdgeKind, reason: string, nofollow: bool, enqueue: bool)

  datatype Outcome =
    | InvalidUrl
    | CooldownActive(remaining: real)
    | InFlight
    | AlreadyEnqueued
    | TooDeep
    | MaxNodes
    | Enqueued(url: string)

  function Given(s: Option<string>): Option<string> {
    if s == Some("") then None else s
  }

  function CooldownRemaining(nodes: Nodes, url: string, now: real): real {
    if UrlId(url) !in nodes then 0.0
    else
      var until := nodes[UrlId(url)].cooldownUntil;
      if until <= 0.0 || until <= now then 0.0 else until - now
  }

  /** The time left until then, while it is to come; nothing is left of a cooldown that was never set. */
  lemma CooldownIff(nodes: Nodes, url: string, now: real, left: real)
    requires left > 0.0 && now >= 0.0
    ensures CooldownRemaining(nodes, url, now) == left <==> UrlId(url) in nodes && nodes[UrlId(url)].cooldownUntil == now + left
    ensures CooldownRemaining(nodes, url, now) >= 0.0
  {
  }

  /** Setting a cooldown blocks the URL until then, and no other. */
  lemma CooldownSet(nodes: Nodes, url: string, other: string, until: real, now: real)
    requires UrlId(url) in nodes && now >= 0.0 && other != url
    ensures var after := Patched(nodes, url, Patch(None, Some(until), None, None));
      && CooldownRemaining(after, url, now) == (if until > now then until - now else 0.0)
      && CooldownRemaining(after, other, now) == CooldownRemaining(nodes, other, now)
  {
    if UrlId(other) == UrlId(url) { NodeIdInjective(UrlNode, other, UrlNode, url); }
  }

  ghost predicate QueueKnown(nodes: Nodes, queued: seq<Item>) {
    forall x :: x in queued ==> UrlId(x.url) in nodes && Known(nodes, x.sourceUrl)
  }

  function LinkedHalf(edges: Edges, url: string, host: string): Edges {
    WithEdge(edges, Edge(MEMBER, UrlId(url), NodeId(DomainNode, host)))
  }

  /** The nodes with a URL's and its domain's, as they are added unless they are there. */
  function AddedUrl(nodes: Nodes, url: string, host: string, depth: int, source: Option<string>): Nodes {
    WithNode(WithNode(nodes, NewUrlNode(url, depth, source)), NewNode(DomainNode, host))
  }

  /**
   * The URL's node says that it is queued, and where it was first found; besides it, only its domain
   * can be new.
   */
  ghost predicate HasQueued(nodes: Nodes, nodes': Nodes, url: string, host: string, depth: int, source: Option<string>) {
    && nodes'.Keys == nodes.Keys + {UrlId(url), NodeId(DomainNode, host)}
    && nodes'[UrlId(url)].status == "queued" && NewUrlsAt(nodes, nodes', depth, source)
    && (forall id :: id in nodes && id != UrlId(url) ==> nodes'[id] == nodes[id])
  }

  lemma AddedAreNew(nodes: Nodes, url: string, host: string, depth: int, source: Option<string>)
    ensures NewUrlsAt(nodes, AddedUrl(nodes, url, host, depth, source), depth, source)
  {
  }

  lemma AddedIsQueued(nodes: Nodes, url: string, host: string, depth: int, source: Option<string>)
    ensures HasQueued(nodes, Patched(AddedUrl(nodes, url, host, depth, source), url, Patch(Some("queued"), None, None, None)),
                      url, host, depth, source)
  {
  }

  /** Nothing has been announced since, or one delta for this reason. */
  ghost predicate AnnouncedAs(before: seq<Delta>, after: seq<Delta>, reason: string) {
    after == before || (after != [] && after[..|after| - 1] == before && after[|after| - 1].reason == reason)
  }

  /** The edges of a node just discovered: to its domain, and from the page it was found on. */
  function Linked(edges: Edges, url: string, host: string, source: Option<string>): Edges {
    if source.None? then LinkedHalf(edges, url, host)
    else WithEdge(LinkedHalf(edges, url, host), Edge(HYPERLINK, UrlId(source.value), UrlId(url)))
  }

  /** A reference is an edge of the graph, unless its target is refused because of the cap. */
  ghost predicate EdgeOrFull(nodes: Nodes, edges: Edges, full: bool, item: Item, kind: string, target: Option<string>) {
    target.Some? ==>
      if UrlId(target.value) !in nodes then full
      else
        var e := Edge(kind, UrlId(item.url), UrlId(target.value));
        EdgeId(e) in edges && edges[EdgeId(e)] == e
  }

  /** The URL a reference leads to, unless it is unusable or leads back. */
  function TargetOf(normalize: (string, Option<string>) -> Option<string>, item: Item, r: Reference): Option<string> {
    if r.edgeKind == "" then None
    else
      var target := Given(normalize(r.url, Given(Some(item.url))));
      if target == Some(item.url) then None else target
  }

  /** A reference leads wherever its address, as it stands in the page, is normalised to, but not to the page itself. */
  lemma TargetIff(normalize: (string, Option<string>) -> Option<string>, item: Item, r: Reference, url: string)
    requires item.url != ""
    ensures TargetOf(normalize, item, r) == Some(url) <==>
      r.edgeKind != "" && normalize(r.url, Some(item.url)) == Some(url) && url != "" && url != item.url
    ensures Again(normalize, item, r.url) == Some(url) <==> normalize(r.url, Some(item.url)) == Some(url) && url != ""
  {
  }

  /** The reference is to be followed: it asks for that, it is not marked nofollow, and the depth is left. */
  predicate Followable(normalize: (string, Option<string>) -> Option<string>, maxDepth: int, item: Item, r: Reference) {
    r.enqueue && !r.nofollow && item.depth + 1 <= maxDepth && TargetOf(normalize, item, r).Some?
  }

  /** The URL that is queued for the target, which is normalised once more. */
  function Again(normalize: (string, Option<string>) -> Option<string>, item: Item, target: string): Option<string> {
    Given(normalize(target, Given(Some(item.url))))
  }

  /** The item comes from following one of the references. */
  ghost predicate Follows(
      normalize: (string, Option<string>) -> Option<string>, maxDepth: int, x: Item, item: Item, references: seq<Reference>, now: real)
  {
    exists r :: r in references && Followable(normalize, maxDepth, item, r)
      && Again(normalize, item, TargetOf(normalize, item, r).value) == Some(x.url)
      && x.sourceUrl == Some(item.url) && x.depth == item.depth + 1 && x.readyAt == now
  }

  ghost predicate AllFollow(
      normalize: (string, Option<string>) -> Option<string>, maxDepth: int, xs: seq<Item>, item: Item, references: seq<Reference>, now: real)
  {
    forall x :: x in xs ==> Follows(normalize, maxDepth, x, item, references, now)
  }

  /** The URL is queued, or it is in flight, cooling down, or refused by the cap. */
  ghost predicate Waiting(m: Moment, queued: seq<Item>, inFlight: set<string>, url: string, now: real) {
    || url in Urls(queued) || url in inFlight || CooldownRemaining(m.nodes, url, now) > 0.0
    || (UrlId(url) !in m.nodes && m.full)
  }

  /** A reference to be followed is waiting to be, unless the cap refused its target. */
  ghost predicate Followed(
      normalize: (string, Option<string>) -> Option<string>, maxDepth: int, m: Moment, queued: seq<Item>, inFlight: set<string>,
      item: Item, r: Reference, now: real)
  {
    Followable(normalize, maxDepth, item, r) ==>
      var target := TargetOf(normalize, item, r).value;
      if UrlId(target) !in m.nodes then m.full
      else
        var url := Again(normalize, item, target);
        url.Some? ==> Waiting(m, queued, inFlight, url.value, now)
  }

  lemma WaitingStays(a: Moment, ns: seq<Node>, es: seq<Edge>, b: Moment, qa: seq<Item>, qb: seq<Item>, inFlight: set<string>, url: string, now: real)
    requires Grown(a, ns, es, b) && qa <= qb && Waiting(a, qa, inFlight, url, now)
    ensures Waiting(b, qb, inFlight, url, now)
  {
    if url in Urls(qa) {
      var x :| x in qa && x.url == url;
      assert x in qb;
    }
  }

  lemma QueuedWaits(m: Moment, queued: seq<Item>, x: Item, inFlight: set<string>, now: real)
    ensures Waiting(m, queued + [x], inFlight, x.url, now)
  {
    assert x in queued + [x];
  }

  lemma FollowedStays(
      normalize: (string, Option<string>) -> Option<string>, maxDepth: int, a: Moment, ns: seq<Node>, es: seq<Edge>, b: Moment,
      qa: seq<Item>, qb: seq<Item>, inFlight: set<string>, item: Item, r: Reference, now: real)
    requires Grown(a, ns, es, b) && qa <= qb && Followed(normalize, maxDepth, a, qa, inFlight, item, r, now)
    ensures Followed(normalize, maxDepth, b, qb, inFlight, item, r, now)
  {
    if Followable(normalize, maxDepth, item, r) && UrlId(TargetOf(normalize, item, r).value) in a.nodes {
      var url := Again(normalize, item, TargetOf(normalize, item, r).value);
      if url.Some? { WaitingStays(a, ns, es, b, qa, qb, inFlight, url.value, now); }
    }
  }

  /** What following a reference puts into the queue. */
  function FollowItem(
      normalize: (string, Option<string>) -> Option<string>, item: Item, r: Reference, ok: bool, now: real, priority: real): seq<Item>
  {
    var target := TargetOf(normalize, item, r);
    if ok && target.Some? && Again(normalize, item, target.value).Some?
    then [Item(Again(normalize, item, target.value).value, Some(item.url), item.depth + 1, now, priority)]
    else []
  }

  /** One more reference has been dealt with, which may have put an item into the queue. */
  ghost predicate Advanced(
      normalize: (string, Option<string>) -> Option<string>, maxDepth: int, m: Moment, qa: seq<Item>, qb: seq<Item>, inFlight: set<string>,
      item: Item, r: Reference, ok: bool, now: real, priority: real)
  {
    var xs := FollowItem(normalize, item, r, ok, now, priority);
    && qb == qa + xs && |xs| == (if ok then 1 else 0) && (ok ==> Followable(normalize, maxDepth, item, r))
    && Followed(normalize, maxDepth, m, qb, inFlight, item, r, now)
  }

  /** What the checks before the queue say about a target. */
  ghost predicate Judged(
      normalize: (string, Option<string>) -> Option<string>, maxDepth: int, m: Moment, queued: seq<Item>, inFlight: set<string>,
      item: Item, target: string, outcome: Outcome, now: real)
  {
    var url := Again(normalize, item, target);
    if outcome.Enqueued? then url == Some(outcome.url)
    else item.depth + 1 <= maxDepth && url.Some? ==> Waiting(m, queued, inFlight, url.value, now)
  }

  lemma JudgedAdvances(
      normalize: (string, Option<string>) -> Option<string>, maxDepth: int, m: Moment, qa: seq<Item>, qb: seq<Item>, inFlight: set<string>,
      item: Item, r: Reference, outcome: Outcome, now: real, priority: real)
    requires Followable(normalize, maxDepth, item, r) && UrlId(TargetOf(normalize, item, r).value) in m.nodes
    requires Judged(normalize, maxDepth, m, qa, inFlight, item, TargetOf(normalize, item, r).value, outcome, now)
    requires qb == qa + if outcome.Enqueued? then [Item(outcome.url, Some(item.url), item.depth + 1, now, priority)] else []
    ensures Advanced(normalize, maxDepth, m, qa, qb, inFlight, item, r, outcome.Enqueued?, now, priority)
  {
    if outcome.Enqueued? {
      QueuedWaits(m, qa, qb[|qa|], inFlight, now);
    } else {
      assert qb == qa;
    }
  }

  lemma NotFollowed(
      normalize: (string, Option<string>) -> Option<string>, maxDepth: int, m: Moment, queued: seq<Item>, inFlight: set<string>,
      item: Item, r: Reference, now: real, priority: real)
    requires var target := TargetOf(normalize, item, r);
      Followable(normalize, maxDepth, item, r) ==> UrlId(target.value) !in m.nodes && m.full
    ensures Advanced(normalize, maxDepth, m, queued, queued, inFlight, item, r, false, now, priority)
  {
    assert queued + [] == queued;
  }

  /**
   * The references have been dealt with: they are edges, or refused; what has been put into the queue
   * behind what was there comes from references to be followed, and they are all waiting.
   */
  ghost predicate Ingested(
      normalize: (string, Option<string>) -> Option<string>, maxDepth: int, m: Moment, qa: seq<Item>, qb: seq<Item>, inFlight: set<string>,
      item: Item, references: seq<Reference>, enqueued: nat, now: real)
  {
    && AllTreated(normalize, m, item, references)
    && qa <= qb && |qb| == |qa| + enqueued && AllFollow(normalize, maxDepth, qb[|qa|..], item, references, now)
    && forall r :: r in references ==> Followed(normalize, maxDepth, m, qb, inFlight, item, r, now)
  }

  lemma IngestedMore(
      normalize: (string, Option<string>) -> Option<string>, maxDepth: int, a: Moment, ns: seq<Node>, es: seq<Edge>, b: Moment,
      q: seq<Item>, qa: seq<Item>, qb: seq<Item>, inFlight: set<string>, item: Item, references: seq<Reference>, i: nat,
      enqueued: nat, ok: bool, now: real, priority: real)
    requires i < |references| && Grown(a, ns, es, b)
    requires Ingested(normalize, maxDepth, a, q, qa, inFlight, item, references[..i], enqueued, now)
    requires Treated(normalize, b, item, references[i])
    requires Advanced(normalize, maxDepth, b, qa, qb, inFlight, item, references[i], ok, now, priority)
    ensures Ingested(normalize, maxDepth, b, q, qb, inFlight, item, references[..i + 1], enqueued + if ok then 1 else 0, now)
  {
    AllTreatedMore(normalize, a, b, item, references, i);
    var more := FollowItem(normalize, item, references[i], ok, now, priority);
    assert qb[|q|..] == qa[|q|..] + more;
    AllFollowMore(normalize, maxDepth, qa[|q|..], more, item, references, i, now);
    forall r | r in references[..i + 1] ensures Followed(normalize, maxDepth, b, qb, inFlight, item, r, now) {
      if r in references[..i] { FollowedStays(normalize, maxDepth, a, ns, es, b, qa, qb, inFlight, item, r, now); }
    }
  }

  lemma AllFollowMore(
      normalize: (string, Option<string>) -> Option<string>, maxDepth: int, xs: seq<Item>, more: seq<Item>, item: Item,
      references: seq<Reference>, i: nat, now: real)
    requires i < |references| && AllFollow(normalize, maxDepth, xs, item, references[..i], now)
    requires AllFollow(normalize, maxDepth, more, item, [references[i]], now)
    ensures AllFollow(normalize, maxDepth, xs + more, item, references[..i + 1], now)
  {
    forall x | x in xs + more ensures Follows(normalize, maxDepth, x, item, references[..i + 1], now) {
      if x in xs {
        var r :| r in references[..i] && Followable(normalize, maxDepth, item, r)
          && Again(normalize, item, TargetOf(normalize, item, r).value) == Some(x.url);
        assert r in references[..i + 1];
      } else {
        assert Follows(normalize, maxDepth, x, item, [references[i]], now) && references[i] in references[..i + 1];
      }
    }
  }

  ghost predicate Treated(normalize: (string, Option<string>) -> Option<string>, m: Moment, item: Item, r: Reference) {
    EdgeOrFull(m.nodes, m.edges, m.full, item, r.edgeKind, TargetOf(normalize, item, r))
  }

  ghost predicate AllTreated(
      normalize: (string, Option<string>) -> Option<string>, m: Moment, item: Item, references: seq<Reference>)
  {
    forall r :: r in references ==> Treated(normalize, m, item, r)
  }

  lemma AllTreatedMore(
      normalize: (string, Option<string>) -> Option<string>, a: Moment, b: Moment, item: Item,
      references: seq<Reference>, i: nat)
    requires i < |references| && AllTreated(normalize, a, item, references[..i])
    requires Grew(a.nodes, a.edges, a.full, b.nodes, b.edges) && (a.full ==> b.full)
    requires Treated(normalize, b, item, references[i])
    ensures AllTreated(normalize, b, item, references[..i + 1])
  {
    forall r | r in references[..i + 1] ensures Treated(normalize, b, item, r) {
      if r in references[..i] {
        EdgeOrFullStays(a, b, item, r.edgeKind, TargetOf(normalize, item, r));
      }
    }
  }

  lemma EdgeOrFullStays(a: Moment, b: Moment, item: Item, kind: string, target: Option<string>)
    requires EdgeOrFull(a.nodes, a.edges, a.full, item, kind, target)
    requires Grew(a.nodes, a.edges, a.full, b.nodes, b.edges) && (a.full ==> b.full)
    ensures EdgeOrFull(b.nodes, b.edges, b.full, item, kind, target)
  {
  }

  function AnnouncedNodes(deltas: seq<Delta>): set<string> {
    set d, id | d in deltas && id in NodeIds(d.nodes) :: id
  }

  function AnnouncedEdges(deltas: seq<Delta>): set<string> {
    set d, id | d in deltas && id in EdgeIds(d.edges) :: id
  }

  lemma AnnouncedMore(deltas: seq<Delta>, reason: string, nodes: seq<Node>, edges: seq<Edge>)
    ensures var all := deltas + DeltaOf(reason, nodes, edges);
      && AnnouncedNodes(all) == AnnouncedNodes(deltas) + (set id | id in NodeIds(nodes))
      && AnnouncedEdges(all) == AnnouncedEdges(deltas) + (set id | id in EdgeIds(edges))
  {
  }

  /** What a growing graph looked like at a moment. */
  datatype Moment = Moment(nodes: Nodes, edges: Edges, full: bool, deltas: seq<Delta>)

  /** From `a` to `b` the graph has grown by the nodes and edges created, and what was announced besides. */
  ghost predicate Enlarged(a: Moment, createdNodes: seq<Node>, createdEdges: seq<Edge>, b: Moment) {
    && Grew(a.nodes, a.edges, a.full, b.nodes, b.edges) && (a.full ==> b.full)
    && AnnouncedNodes(a.deltas) <= AnnouncedNodes(b.deltas)
    && AnnouncedEdges(a.deltas) <= AnnouncedEdges(b.deltas)
    && Accounted(a.nodes.Keys, NodeIds(createdNodes), AnnouncedNodes(b.deltas), b.nodes.Keys)
    && Accounted(a.edges.Keys, EdgeIds(createdEdges), AnnouncedEdges(b.deltas), b.edges.Keys)
  }

  /** And no node was touched. */
  ghost predicate Grown(a: Moment, createdNodes: seq<Node>, createdEdges: seq<Edge>, b: Moment) {
    Enlarged(a, createdNodes, createdEdges, b) && KeepsNodes(a.nodes, b.nodes)
  }

  lemma GrewThen(a: Moment, b: Moment, c: Moment)
    requires Grew(a.nodes, a.edges, a.full, b.nodes, b.edges) && (a.full ==> b.full)
    requires Grew(b.nodes, b.edges, b.full, c.nodes, c.edges)
    ensures Grew(a.nodes, a.edges, a.full, c.nodes, c.edges)
  {
  }

  lemma GrownThen(a: Moment, ns: seq<Node>, es: seq<Edge>, b: Moment, ns': seq<Node>, es': seq<Edge>, c: Moment)
    requires Grown(a, ns, es, b) && Grown(b, ns', es', c)
    ensures Grown(a, ns + ns', es + es', c)
  {
    EnlargedThen(a, ns, es, b, ns', es', c);
  }

  lemma EnlargedThen(a: Moment, ns: seq<Node>, es: seq<Edge>, b: Moment, ns': seq<Node>, es': seq<Edge>, c: Moment)
    requires Enlarged(a, ns, es, b) && Enlarged(b, ns', es', c)
    ensures Enlarged(a, ns + ns', es + es', c)
  {
    GrewThen(a, b, c);
    NodeIdsConcat(ns, ns');
    EdgeIdsConcat(es, es');
    AccountedThen(a.nodes.Keys, NodeIds(ns), AnnouncedNodes(b.deltas), b.nodes.Keys,
                  NodeIds(ns'), AnnouncedNodes(c.deltas), c.nodes.Keys);
    AccountedThen(a.edges.Keys, EdgeIds(es), AnnouncedEdges(b.deltas), b.edges.Keys,
                  EdgeIds(es'), AnnouncedEdges(c.deltas), c.edges.Keys);
  }

  lemma NodeIdsConcat(ns: seq<Node>, ns': seq<Node>)
    ensures NodeIds(ns + ns') == NodeIds(ns) + NodeIds(ns')
  {
  }

  lemma EdgeIdsConcat(es: seq<Edge>, es': seq<Edge>)
    ensures EdgeIds(es + es') == EdgeIds(es) + EdgeIds(es')
  {
  }

  /** Announcing what was created. */
  lemma GrownAnnounced(a: Moment, ns: seq<Node>, es: seq<Edge>, b: Moment, reason: string)
    requires Grown(a, ns, es, b)
    ensures Grown(a, [], [], b.(deltas := b.deltas + DeltaOf(reason, ns, es)))
  {
    AnnouncedMore(b.deltas, reason, ns, es);
  }

  /** One more node, which may be a URL only if there was room. */
  lemma GrownByNode(a: Moment, n: Node, b: Moment, created: seq<Node>)
    requires b.nodes == WithNode(a.nodes, n) && b.edges == a.edges && b.deltas == a.deltas && (a.full ==> b.full)
    requires a.full ==> NoNewUrls(a.nodes, b.nodes)
    requires Adds(NodeIds(created), a.nodes.Keys, b.nodes.Keys)
    ensures Grown(a, created, [], b)
  {
    FewerLoose(a.nodes, b.nodes, a.edges);
  }

  /** One more edge between nodes. */
  lemma GrownByEdge(a: Moment, e: Edge, b: Moment, created: seq<Edge>)
    requires b.nodes == a.nodes && b.deltas == a.deltas && (a.full ==> b.full)
    requires b.edges == WithEdge(a.edges, e) && e.source in a.nodes && e.target in a.nodes
    requires Adds(EdgeIds(created), a.edges.Keys, b.edges.Keys)
    ensures Grown(a, [], created, b)
  {
  }

  /** A change of status. */
  lemma GrownByStatus(a: Moment, url: string, status: string, b: Moment)
    requires b.nodes == Patched(a.nodes, url, Patch(Some(status), None, None, None))
    requires b.edges == a.edges && b.deltas == a.deltas && b.full == a.full
    ensures Grown(a, [], [], b)
  {
  }

  /** A touch. */
  lemma EnlargedByTouch(a: Moment, ns: seq<Node>, url: string, patch: Patch, b: Moment, c: Moment)
    requires Enlarged(a, ns, [], b) && c == b.(nodes := Patched(b.nodes, url, patch))
    ensures Enlarged(a, ns, [], c)
  {
    PatchedKeeps(b.nodes, url, patch);
    FewerLoose(b.nodes, c.nodes, b.edges);
  }

  lemma GrownNot(a: Moment)
    ensures Grown(a, [], [], a)
  {
  }

  /**
   * The parts of a weaver's invariant that tie nodes, edges and queue together: every URL that is
   * queued or recorded as a source is a node, URLs are normalised, and edges are proper.
   */
  ghost predicate Coherent(nodes: Nodes, edges: Edges, queued: seq<Item>) {
    SourcesKnown(nodes) && QueueKnown(nodes, queued) && UrlsNormal(nodes) && Proper(edges)
  }

  lemma StaysCoherent(nodes: Nodes, edges: Edges, queued: seq<Item>, n: Node)
    requires Coherent(nodes, edges, queued) && Known(nodes, n.sourceUrl)
    requires n.kind.UrlNode? ==> NormalUrl(n.name)
    ensures Coherent(WithNode(nodes, n), edges, queued)
  {
  }

  lemma PatchCoherent(nodes: Nodes, edges: Edges, queued: seq<Item>, url: string, patch: Patch)
    requires Coherent(nodes, edges, queued)
    ensures Coherent(Patched(nodes, url, patch), edges, queued)
  {
    PatchedKeeps(nodes, url, patch);
  }

  lemma QueueCoherent(nodes: Nodes, edges: Edges, queued: seq<Item>, item: Item)
    requires Coherent(nodes, edges, queued) && UrlId(item.url) in nodes && Known(nodes, item.sourceUrl)
    ensures Coherent(nodes, edges, queued + [item])
  {
  }

  lemma LinkCoherent(nodes: Nodes, edges: Edges, queued: seq<Item>, e: Edge)
    requires Coherent(nodes, edges, queued)
    requires LinkEdge(e) || exists u, c :: NormalUrl(u) && e == ContentEdge(u, c)
    ensures Coherent(nodes, WithEdge(edges, e), queued)
  {
  }

  lemma KnownIsNormal(nodes: Nodes, url: string)
    requires Filed(nodes) && UrlsNormal(nodes) && UrlId(url) in nodes
    ensures NormalUrl(url)
  {
    var n := nodes[UrlId(url)];
    NodeIdInjective(n.kind, n.name, UrlNode, url);
  }

  /** Normalising gives normal URLs, and a host's name has no bar in it. */
  ghost predicate NormalizesWell(normalize: (string, Option<string>) -> Option<string>, hostOf: string -> string) {
    && (forall raw, base :: Given(normalize(raw, base)).Some? ==> NormalUrl(normalize(raw, base).value))
    && (forall u :: NormalUrl(u) ==> '|' !in hostOf(u))
  }

  lemma MemberEdge(normalize: (string, Option<string>) -> Option<string>, hostOf: string -> string, url: string)
    requires NormalizesWell(normalize, hostOf) && NormalUrl(url)
    ensures LinkEdge(Edge(MEMBER, UrlId(url), NodeId(DomainNode, hostOf(url))))
  {
  }

  lemma UrlEdge(kind: EdgeKind, source: string, target: string)
    requires NormalUrl(source) && NormalUrl(target)
    ensures LinkEdge(Edge(kind, UrlId(source), UrlId(target)))
  {
  }

  class Weaver {
    const graph: GraphStore
    const frontier: FrontierQueue
    const normalize: (string, Option<string>) -> Option<string>
    const hostOf: string -> string

    var inFlightUrls: set<string>
    var currentMaxDepth: int
    var activationThreshold: real

    /** The graph deltas announced so far. */
    var deltas: seq<Delta>

    ghost predicate Valid()
      reads this, graph, frontier
    {
      && graph.Valid() && frontier.Valid()
      && NormalizesWell(normalize, hostOf)
      && Coherent(graph.nodes, graph.edges, frontier.queued)
    }

    constructor (maxUrlNodes: nat, maxDepth: int, normalize: (string, Option<string>) -> Option<string>, hostOf: string -> string)
      requires NormalizesWell(normalize, hostOf)
      ensures Valid() && fresh(graph) && fresh(frontier)
      ensures graph.nodes == map[] && graph.edges == map[] && frontier.queued == [] && deltas == []
      ensures graph.maxUrlNodes == maxUrlNodes && currentMaxDepth == maxDepth && inFlightUrls == {}
      ensures this.normalize == normalize && this.hostOf == hostOf
    {
      this.normalize, this.hostOf := normalize, hostOf;
      inFlightUrls, currentMaxDepth, activationThreshold, deltas := {}, maxDepth, 1.0, [];
      graph := new GraphStore(maxUrlNodes);
      frontier := new FrontierQueue();
    }

    ghost function Now(): Moment
      reads this, graph
    {
      Moment(graph.nodes, graph.edges, graph.Full(), deltas)
    }

    function Normalized(rawUrl: string, base: Option<string>): Option<string> {
      Given(normalize(rawUrl, base))
    }

    /** What becomes of a URL. */
    function Decide(rawUrl: string, sourceUrl: Option<string>, depth: int, now: real): Outcome
      reads this, graph, frontier
    {
      DecideOver(graph.nodes, graph.Full(), rawUrl, sourceUrl, depth, now)
    }

    function DecideOver(nodes: Nodes, full: bool, rawUrl: string, sourceUrl: Option<string>, depth: int, now: real): Outcome
      reads this, frontier
    {
      var normalized := Normalized(rawUrl, Given(sourceUrl));
      if normalized.None? then InvalidUrl
      else
        var url := normalized.value;
        var remaining := CooldownRemaining(nodes, url, now);
        if remaining > 0.0 then CooldownActive(remaining)
        else if url in inFlightUrls then InFlight
        else if frontier.Has(url) then AlreadyEnqueued
        else if depth > currentMaxDepth then TooDeep
        else if UrlId(url) !in nodes && full then MaxNodes
        else Enqueued(url)
    }

    /**
     * Put a URL into graph and frontier.  The source URL, if any, is a node; then no loose edge comes
     * about, at the cap too and whatever edges there were before, and pushing never fails.
     */
    method EnqueueUrl(rawUrl: string, sourceUrl: Option<string>, depth: int, reason: string, now: real, priority: real)
        returns (outcome: Outcome)
      requires Valid() && Known(graph.nodes, sourceUrl)
      modifies this`deltas, graph`nodes, graph`edges, graph`urlNodeCount, frontier
      ensures Valid()
      ensures outcome == old(Decide(rawUrl, sourceUrl, depth, now))
      ensures Grown(old(Now()), [], [], Now())
      ensures !outcome.Enqueued? ==>
        && graph.nodes == old(graph.nodes) && graph.edges == old(graph.edges)
        && frontier.queued == old(frontier.queued) && deltas == old(deltas)
      ensures AnnouncedAs(old(deltas), deltas, reason)
      ensures outcome.Enqueued? ==>
        && HasQueued(old(graph.nodes), graph.nodes, outcome.url, hostOf(outcome.url), depth, Given(sourceUrl))
        && graph.edges == Linked(old(graph.edges), outcome.url, hostOf(outcome.url), Given(sourceUrl))
        && (Given(sourceUrl).Some? ==> Joined(HYPERLINK, UrlId(sourceUrl.value), UrlId(outcome.url)))
        && frontier.queued == old(frontier.queued) + [Item(outcome.url, sourceUrl, depth, now, priority)]
    {
      GrownNot(Now());
      var normalized := normalize(rawUrl, Given(sourceUrl));
      if normalized.None? || normalized.value == "" {
        return InvalidUrl;
      }
      var url := normalized.value;
      var remaining := CooldownRemaining(graph.nodes, url, now);
      if remaining > 0.0 {
        return CooldownActive(remaining);
      }
      if url in inFlightUrls {
        return InFlight;
      }
      if frontier.Has(url) {
        return AlreadyEnqueued;
      }
      if depth > currentMaxDepth {
        return TooDeep;
      }
      var rejected := Admit(url, sourceUrl, depth, reason, now, priority);
      outcome := if rejected then MaxNodes else Enqueued(url);
    }

    /** This very edge is in the graph. */
    ghost predicate Joined(kind: string, source: string, target: string)
      reads this, graph
    {
      var e := Edge(kind, source, target);
      EdgeId(e) in graph.edges && graph.edges[EdgeId(e)] == e
    }

    method Admit(url: string, sourceUrl: Option<string>, depth: int, reason: string, now: real, priority: real)
        returns (rejected: bool)
      requires Valid() && Known(graph.nodes, sourceUrl) && NormalUrl(url) && !frontier.Has(url)
      modifies this`deltas, graph`nodes, graph`edges, graph`urlNodeCount, frontier
      ensures Valid() && Grown(old(Now()), [], [], Now())
      ensures rejected <==> UrlId(url) !in old(graph.nodes) && old(graph.Full())
      ensures rejected ==>
        && graph.nodes == old(graph.nodes) && graph.edges == old(graph.edges)
        && frontier.queued == old(frontier.queued) && deltas == old(deltas)
      ensures AnnouncedAs(old(deltas), deltas, reason)
      ensures !rejected ==> HasQueued(old(graph.nodes), graph.nodes, url, hostOf(url), depth, Given(sourceUrl))
      ensures !rejected ==>
        && graph.edges == Linked(old(graph.edges), url, hostOf(url), Given(sourceUrl))
        && (Given(sourceUrl).Some? ==> Joined(HYPERLINK, UrlId(sourceUrl.value), UrlId(url)))
        && frontier.queued == old(frontier.queued) + [Item(url, sourceUrl, depth, now, priority)]
    {
      rejected := Discover(url, Given(sourceUrl), depth, reason);
      if !rejected {
        ghost var between := Now();
        Queue(Item(url, sourceUrl, depth, now, priority));
        GrownThen(old(Now()), [], [], between, [], [], Now());
        AddedIsQueued(old(graph.nodes), url, hostOf(url), depth, Given(sourceUrl));
      }
    }

    /** Put the URL into the graph, linked to its domain and its source, and announce what is new. */
    method Discover(url: string, source: Option<string>, depth: int, reason: string) returns (rejected: bool)
      requires Valid() && Known(graph.nodes, source) && source != Some("") && NormalUrl(url)
      modifies this`deltas, graph`nodes, graph`edges, graph`urlNodeCount
      ensures Valid()
      ensures rejected <==> UrlId(url) !in old(graph.nodes) && old(graph.Full())
      ensures rejected ==> graph.nodes == old(graph.nodes) && graph.edges == old(graph.edges) && deltas == old(deltas)
      ensures !rejected ==>
        && graph.nodes.Keys == old(graph.nodes.Keys) + {UrlId(url), NodeId(DomainNode, hostOf(url))}
        && graph.edges == Linked(old(graph.edges), url, hostOf(url), source)
        && (source.Some? ==> Joined(HYPERLINK, UrlId(source.value), UrlId(url)))
      ensures !rejected ==> graph.nodes == AddedUrl(old(graph.nodes), url, hostOf(url), depth, source)
      ensures AnnouncedAs(old(deltas), deltas, reason)
      ensures Grown(old(Now()), [], [], Now())
    {
      var createdNodes, createdEdges;
      createdNodes, createdEdges, rejected := AddLinked(url, source, depth);
      if rejected {
        GrownNot(Now());
      } else {
        AnnounceGrown(old(Now()), reason, createdNodes, createdEdges);
      }
    }

    method AddLinked(url: string, source: Option<string>, depth: int)
        returns (createdNodes: seq<Node>, createdEdges: seq<Edge>, rejected: bool)
      requires Valid() && Known(graph.nodes, source) && source != Some("") && NormalUrl(url)
      modifies graph`nodes, graph`edges, graph`urlNodeCount
      ensures Valid()
      ensures rejected <==> UrlId(url) !in old(graph.nodes) && old(graph.Full())
      ensures rejected ==> graph.nodes == old(graph.nodes) && graph.edges == old(graph.edges)
      ensures !rejected ==>
        && graph.nodes.Keys == old(graph.nodes.Keys) + {UrlId(url), NodeId(DomainNode, hostOf(url))}
        && graph.edges == Linked(old(graph.edges), url, hostOf(url), source)
        && (source.Some? ==> Joined(HYPERLINK, UrlId(source.value), UrlId(url)))
      ensures !rejected ==> graph.nodes == AddedUrl(old(graph.nodes), url, hostOf(url), depth, source)
      ensures Grown(old(Now()), createdNodes, createdEdges, Now())
    {
      createdNodes, createdEdges, rejected := AddTarget(url, depth, source);
      if !rejected && source.Some? {
        createdEdges := JoinUrls(old(Now()), createdNodes, createdEdges, HYPERLINK, source.value, url);
      }
    }

    method AnnounceGrown(ghost before: Moment, reason: string, nodes: seq<Node>, edges: seq<Edge>)
      requires Grown(before, nodes, edges, Now())
      modifies this`deltas
      ensures deltas == old(deltas) + DeltaOf(reason, nodes, edges)
      ensures Grown(before, [], [], Now())
    {
      GrownAnnounced(before, nodes, edges, Now(), reason);
      Announce(reason, nodes, edges);
    }

    method Announce(reason: string, nodes: seq<Node>, edges: seq<Edge>)
      modifies this`deltas
      ensures deltas == old(deltas) + DeltaOf(reason, nodes, edges)
    {
      if nodes != [] || edges != [] {
        deltas := deltas + [Delta(reason, nodes, edges)];
      }
    }

    /** The part that links and references share: the target, its domain, and the edge between them. */
    method AddTarget(url: string, depth: int, source: Option<string>)
        returns (createdNodes: seq<Node>, createdEdges: seq<Edge>, rejected: bool)
      requires Valid() && Known(graph.nodes, source) && NormalUrl(url)
      modifies graph`nodes, graph`edges, graph`urlNodeCount
      ensures Valid()
      ensures rejected <==> UrlId(url) !in old(graph.nodes) && old(graph.Full())
      ensures rejected ==> graph.nodes == old(graph.nodes) && graph.edges == old(graph.edges)
      ensures !rejected ==>
        && graph.nodes.Keys == old(graph.nodes.Keys) + {UrlId(url), NodeId(DomainNode, hostOf(url))}
        && graph.edges == LinkedHalf(old(graph.edges), url, hostOf(url))
      ensures !rejected ==> graph.nodes == AddedUrl(old(graph.nodes), url, hostOf(url), depth, source)
      ensures Grown(old(Now()), createdNodes, createdEdges, Now())
    {
      createdNodes, rejected := AddNodes(url, depth, source);
      if rejected {
        return [], [], true;
      }
      MemberEdge(normalize, hostOf, url);
      createdEdges := JoinAlso(old(Now()), createdNodes, [], MEMBER, UrlId(url), NodeId(DomainNode, hostOf(url)));
    }

    /** Domains are not capped, so that a URL that gets in has its domain there as well. */
    method AddNodes(url: string, depth: int, source: Option<string>) returns (created: seq<Node>, rejected: bool)
      requires Valid() && Known(graph.nodes, source) && NormalUrl(url)
      modifies graph`nodes, graph`urlNodeCount
      ensures Valid()
      ensures rejected <==> UrlId(url) !in old(graph.nodes) && old(graph.Full())
      ensures rejected ==> graph.nodes == old(graph.nodes)
      ensures !rejected ==> graph.nodes.Keys == old(graph.nodes.Keys) + {UrlId(url), NodeId(DomainNode, hostOf(url))}
      ensures !rejected ==> graph.nodes == AddedUrl(old(graph.nodes), url, hostOf(url), depth, source)
      ensures Grown(old(Now()), created, [], Now())
    {
      created, rejected := AddUrlNode(url, depth, source);
      if rejected {
        return;
      }
      ghost var between := Now();
      var domain := AddDomainNode(hostOf(url));
      GrownThen(old(Now()), created, [], between, domain, [], Now());
      created := created + domain;
    }

    method AddUrlNode(url: string, depth: int, source: Option<string>) returns (created: seq<Node>, rejected: bool)
      requires Valid() && Known(graph.nodes, source) && NormalUrl(url)
      modifies graph`nodes, graph`urlNodeCount
      ensures Valid()
      ensures rejected <==> UrlId(url) !in old(graph.nodes) && old(graph.Full())
      ensures graph.nodes.Keys == old(graph.nodes.Keys) + if rejected then {} else {UrlId(url)}
      ensures rejected ==> graph.nodes == old(graph.nodes)
      ensures !rejected ==> graph.nodes == WithNode(old(graph.nodes), NewUrlNode(url, depth, source))
      ensures !rejected ==> created == Missing(old(graph.nodes), url, depth, source)
      ensures graph.urlNodeCount == old(graph.urlNodeCount) + |created|
      ensures Grown(old(Now()), created, [], Now())
    {
      StaysCoherent(graph.nodes, graph.edges, frontier.queued, NewUrlNode(url, depth, source));
      ghost var before := Now();
      var _, node, refused := graph.UpsertUrl(url, depth, source);
      created, rejected := node, refused;
      if rejected { GrownNot(Now()); } else { GrownByNode(before, NewUrlNode(url, depth, source), Now(), created); }
    }

    method AddDomainNode(host: string) returns (created: seq<Node>)
      requires Valid()
      modifies graph`nodes, graph`urlNodeCount
      ensures Valid() && graph.nodes.Keys == old(graph.nodes.Keys) + {NodeId(DomainNode, host)}
      ensures graph.nodes == WithNode(old(graph.nodes), NewNode(DomainNode, host))
      ensures Grown(old(Now()), created, [], Now())
    {
      StaysCoherent(graph.nodes, graph.edges, frontier.queued, NewNode(DomainNode, host));
      ghost var before := Now();
      var _, node := graph.UpsertDomain(host);
      created := node;
      GrownByNode(before, NewNode(DomainNode, host), Now(), created);
    }

    method Join(kind: string, source: string, target: string) returns (created: seq<Edge>)
      requires Valid() && source in graph.nodes && target in graph.nodes && LinkEdge(Edge(kind, source, target))
      modifies graph`edges
      ensures Valid() && Joined(kind, source, target)
      ensures graph.edges == WithEdge(old(graph.edges), Edge(kind, source, target))
      ensures Grown(old(Now()), [], created, Now())
    {
      LinkCoherent(graph.nodes, graph.edges, frontier.queued, Edge(kind, source, target));
      ghost var before := Now();
      created := graph.UpsertEdge(kind, source, target);
      LinkEdgeIsThere(graph.edges, Edge(kind, source, target));
      GrownByEdge(before, Edge(kind, source, target), Now(), created);
    }

    method JoinAlso(ghost before: Moment, nodes: seq<Node>, earlier: seq<Edge>, kind: string, source: string, target: string)
        returns (created: seq<Edge>)
      requires Valid() && source in graph.nodes && target in graph.nodes && LinkEdge(Edge(kind, source, target))
      requires Grown(before, nodes, earlier, Now())
      modifies graph`edges
      ensures Valid() && Grown(before, nodes, created, Now())
      ensures graph.edges == WithEdge(old(graph.edges), Edge(kind, source, target))
      ensures Joined(kind, source, target)
    {
      ghost var between := Now();
      var edges := Join(kind, source, target);
      GrownThen(before, nodes, earlier, between, [], edges, Now());
      assert nodes + [] == nodes;
      created := earlier + edges;
    }

    method JoinUrls(ghost before: Moment, nodes: seq<Node>, earlier: seq<Edge>, kind: EdgeKind, source: string, target: string)
        returns (created: seq<Edge>)
      requires Valid() && UrlId(source) in graph.nodes && UrlId(target) in graph.nodes
      requires Grown(before, nodes, earlier, Now())
      modifies graph`edges
      ensures Valid() && Grown(before, nodes, created, Now())
      ensures graph.edges == WithEdge(old(graph.edges), Edge(kind, UrlId(source), UrlId(target)))
      ensures Joined(kind, UrlId(source), UrlId(target))
    {
      KnownIsNormal(graph.nodes, source);
      KnownIsNormal(graph.nodes, target);
      UrlEdge(kind, source, target);
      created := JoinAlso(before, nodes, earlier, kind, UrlId(source), UrlId(target));
    }

    /** The URL is not queued yet, so that the push succeeds. */
    method Queue(item: Item)
      requires Valid() && UrlId(item.url) in graph.nodes && Known(graph.nodes, item.sourceUrl)
      requires item.url != "" && !frontier.Has(item.url)
      modifies graph`nodes, frontier
      ensures Valid() && frontier.queued == old(frontier.queued) + [item]
      ensures graph.nodes == Patched(old(graph.nodes), item.url, Patch(Some("queued"), None, None, None))
      ensures graph.nodes.Keys == old(graph.nodes.Keys) && Grown(old(Now()), [], [], Now())
    {
      QueueCoherent(graph.nodes, graph.edges, frontier.queued, item);
      var pushed := frontier.Push(item);
      assert pushed;
      var patch := Patch(Some("queued"), None, None, None);
      PatchCoherent(graph.nodes, graph.edges, frontier.queued, item.url, patch);
      ghost var before := Now();
      graph.SetUrlStatus(item.url, patch);
      GrownByStatus(before, item.url, "queued", Now());
    }

    // -- Where source URLs come from --

    /** What comes out of the queue is a node, as enqueueing what its page links to demands. */
    method TakeItem(now: real) returns (item: Option<Item>)
      requires Valid()
      modifies frontier
      ensures Valid()
      ensures item.None? <==> forall x :: x in old(frontier.queued) ==> x.readyAt > now
      ensures item.Some? ==> item.value in old(frontier.queued) && item.value.readyAt <= now
      ensures item.Some? ==> UrlId(item.value.url) in graph.nodes && Known(graph.nodes, item.value.sourceUrl)
    {
      item := frontier.PopReady(now);
      assert forall x :: x in frontier.queued ==> x in old(frontier.queued);
    }

    /** The decision about a node once it is in the graph. */
    function DecideTouched(url: string, later: real): Outcome
      reads this, graph, frontier
    {
      var was := NodeFor(graph.nodes, url);
      var count := graph.urlNodeCount + if UrlId(url) in graph.nodes then 0 else 1;
      DecideOver(WithNode(graph.nodes, NewUrlNode(url, 0, None)), count >= graph.maxUrlNodes, url, was.sourceUrl, was.depth, later)
    }

    /** What becomes of touching a node. */
    function Activated(rawUrl: string, delta: Option<real>, allowEnqueue: bool, now: real, later: real): Activation
      reads this, graph, frontier
    {
      var normalized := Normalized(rawUrl, None);
      if normalized.None? then NoUrl
      else
        var url := normalized.value;
        if UrlId(url) !in graph.nodes && graph.Full() then NoRoom
        else
          var ripe := allowEnqueue && Ripe(NodeFor(graph.nodes, url), delta, activationThreshold);
          Touching(url, CooldownRemaining(graph.nodes, url, now), ripe, DecideTouched(url, later))
    }

    /**
     * Someone touches a node, which raises its potential.  Over the threshold it is queued again,
     * with the source and depth recorded for it, if the checks let it, and pays the threshold for that.
     */
    method ActivateNode(rawUrl: string, delta: Option<real>, allowEnqueue: bool, now: real, later: real, priority: real)
        returns (a: Activation)
      requires Valid()
      modifies this`deltas, graph`nodes, graph`edges, graph`urlNodeCount, frontier
      ensures Valid()
      ensures a == old(Activated(rawUrl, delta, allowEnqueue, now, later))
      ensures AnnouncedAs(old(deltas), deltas, ACTIVATION)
      ensures !a.Touched? ==>
        && graph.nodes == old(graph.nodes) && graph.edges == old(graph.edges)
        && frontier.queued == old(frontier.queued) && deltas == old(deltas)
      ensures a.Touched? ==>
        && Enlarged(old(Now()), Missing(old(graph.nodes), a.url, 0, None), [], Now())
        && var was, outcome := NodeFor(old(graph.nodes), a.url), old(DecideTouched(a.url, later));
           && frontier.queued == old(frontier.queued) + QueuedAgain(a, was, outcome, later, priority)
           && TouchedNode(graph.nodes, a, was, AfterTouch(was, delta, 0.0), AfterTouch(was, delta, activationThreshold))
    {
      var normalized := normalize(rawUrl, None);
      if normalized.None? || normalized.value == "" {
        return NoUrl;
      }
      var url := normalized.value;
      var was := NodeFor(graph.nodes, url);
      var raised, rest := AfterTouch(was, delta, 0.0), AfterTouch(was, delta, activationThreshold);
      a := ActivateUrl(url, allowEnqueue && Ripe(was, delta, activationThreshold), raised, rest, now, later, priority);
      assert a.Touched? ==> a.url == url;
    }

    method ActivateUrl(url: string, ripe: bool, raised: real, rest: real, now: real, later: real, priority: real)
        returns (a: Activation)
      requires Valid() && NormalUrl(url)
      modifies this`deltas, graph`nodes, graph`edges, graph`urlNodeCount, frontier
      ensures Valid()
      ensures a ==
        if UrlId(url) !in old(graph.nodes) && old(graph.Full()) then NoRoom
        else Touching(url, CooldownRemaining(old(graph.nodes), url, now), ripe, old(DecideTouched(url, later)))
      ensures AnnouncedAs(old(deltas), deltas, ACTIVATION)
      ensures !a.Touched? ==>
        && graph.nodes == old(graph.nodes) && graph.edges == old(graph.edges)
        && frontier.queued == old(frontier.queued) && deltas == old(deltas)
      ensures a.Touched? ==>
        && Enlarged(old(Now()), Missing(old(graph.nodes), url, 0, None), [], Now())
        && var was, outcome := NodeFor(old(graph.nodes), url), old(DecideTouched(url, later));
           && frontier.queued == old(frontier.queued) + QueuedAgain(a, was, outcome, later, priority)
           && TouchedNode(graph.nodes, a, was, raised, rest)
    {
      var created, rejected := AddForTouch(url, later);
      if rejected {
        return NoRoom;
      }
      ghost var between := Now();
      a := ActivateKnown(url, ripe, raised, rest, now, later, priority);
      EnlargedThen(old(Now()), created, [], between, [], [], Now());
      assert created + [] == created;
    }

    method AddForTouch(url: string, ghost later: real) returns (created: seq<Node>, rejected: bool)
      requires Valid() && NormalUrl(url)
      modifies graph`nodes, graph`urlNodeCount
      ensures Valid()
      ensures rejected <==> UrlId(url) !in old(graph.nodes) && old(graph.Full())
      ensures rejected ==> graph.nodes == old(graph.nodes)
      ensures !rejected ==>
        && UrlId(url) in graph.nodes && graph.nodes[UrlId(url)] == NodeFor(old(graph.nodes), url)
        && Decide(url, graph.nodes[UrlId(url)].sourceUrl, graph.nodes[UrlId(url)].depth, later) == old(DecideTouched(url, later))
        && created == Missing(old(graph.nodes), url, 0, None) && Enlarged(old(Now()), created, [], Now())
      ensures forall now: real :: CooldownRemaining(graph.nodes, url, now) == CooldownRemaining(old(graph.nodes), url, now)
    {
      created, rejected := AddUrlNode(url, 0, None);
    }

    /** The node is there; its potential is raised, and goes down to the rest if it is queued. */
    method ActivateKnown(url: string, ripe: bool, raised: real, rest: real, now: real, later: real, priority: real)
        returns (a: Activation)
      requires Valid() && UrlId(url) in graph.nodes
      modifies this`deltas, graph`nodes, graph`edges, graph`urlNodeCount, frontier
      ensures Valid() && Enlarged(old(Now()), [], [], Now())
      ensures AnnouncedAs(old(deltas), deltas, ACTIVATION)
      ensures var was := old(graph.nodes)[UrlId(url)];
        var outcome := old(Decide(url, was.sourceUrl, was.depth, later));
        && a == Touching(url, CooldownRemaining(old(graph.nodes), url, now), ripe, outcome)
        && frontier.queued == old(frontier.queued) + QueuedAgain(a, was, outcome, later, priority)
        && TouchedNode(graph.nodes, a, was, raised, rest)
    {
      var node := graph.nodes[UrlId(url)];
      var remaining := CooldownRemaining(graph.nodes, url, now);
      Interact(url, raised, node, later);
      if remaining <= 0.0 && ripe {
        ghost var between := Now();
        a := Requeue(url, node, rest, remaining, later, priority);
        EnlargedThen(old(Now()), [], [], between, [], [], Now());
      } else {
        a := Touched(url, if remaining > 0.0 then CoolingDown else NotRipe, remaining);
      }
    }

    method Requeue(url: string, node: Node, rest: real, remaining: real, later: real, priority: real) returns (a: Activation)
      requires Valid() && UrlId(url) in graph.nodes && Known(graph.nodes, node.sourceUrl) && remaining <= 0.0
      requires graph.nodes[UrlId(url)].interactions == node.interactions + 1
      modifies this`deltas, graph`nodes, graph`edges, graph`urlNodeCount, frontier
      ensures Valid() && UrlId(url) in graph.nodes && Enlarged(old(Now()), [], [], Now())
      ensures AnnouncedAs(old(deltas), deltas, ACTIVATION)
      ensures var outcome := old(Decide(url, node.sourceUrl, node.depth, later));
        && a == Touching(url, remaining, true, outcome)
        && frontier.queued == old(frontier.queued) + QueuedAgain(a, node, outcome, later, priority)
        && TouchedNode(graph.nodes, a, node, old(graph.nodes[UrlId(url)].potential), rest)
    {
      var outcome := EnqueueAgain(url, node, later, priority);
      a := Settle(old(Now()), url, node, outcome, rest, remaining);
    }

    /** The node pays if it has been queued. */
    method Settle(ghost before: Moment, url: string, node: Node, outcome: Outcome, rest: real, remaining: real) returns (a: Activation)
      requires Valid() && UrlId(url) in graph.nodes && Enlarged(before, [], [], Now()) && remaining <= 0.0
      requires graph.nodes[UrlId(url)].interactions == node.interactions + 1
      modifies graph`nodes
      ensures Valid() && UrlId(url) in graph.nodes && Enlarged(before, [], [], Now())
      ensures a == Touching(url, remaining, true, outcome)
      ensures TouchedNode(graph.nodes, a, node, old(graph.nodes[UrlId(url)].potential), rest)
    {
      if outcome.Enqueued? {
        TouchEnlarges(before, url, rest, None);
        return Touched(url, Queued, remaining);
      }
      a := Touched(url, Refused(outcome), remaining);
    }

    method Interact(url: string, raised: real, node: Node, ghost later: real)
      requires Valid() && UrlId(url) in graph.nodes && node == graph.nodes[UrlId(url)]
      modifies graph`nodes
      ensures Valid() && Enlarged(old(Now()), [], [], Now())
      ensures UrlId(url) in graph.nodes && Known(graph.nodes, node.sourceUrl)
      ensures graph.nodes[UrlId(url)].potential == raised && graph.nodes[UrlId(url)].interactions == node.interactions + 1
      ensures Decide(url, node.sourceUrl, node.depth, later) == old(Decide(url, node.sourceUrl, node.depth, later))
    {
      GrownNot(Now());
      TouchEnlarges(Now(), url, raised, Some(node.interactions + 1));
    }

    method EnqueueAgain(url: string, node: Node, later: real, priority: real) returns (outcome: Outcome)
      requires Valid() && UrlId(url) in graph.nodes && Known(graph.nodes, node.sourceUrl)
      modifies this`deltas, graph`nodes, graph`edges, graph`urlNodeCount, frontier
      ensures Valid() && Enlarged(old(Now()), [], [], Now())
      ensures AnnouncedAs(old(deltas), deltas, ACTIVATION)
      ensures outcome == old(Decide(url, node.sourceUrl, node.depth, later))
      ensures frontier.queued == old(frontier.queued) +
        if outcome.Enqueued? then [Item(outcome.url, node.sourceUrl, node.depth, later, priority)] else []
      ensures UrlId(url) in graph.nodes
      ensures graph.nodes[UrlId(url)].potential == old(graph.nodes[UrlId(url)].potential)
      ensures graph.nodes[UrlId(url)].interactions == old(graph.nodes[UrlId(url)].interactions)
    {
      outcome := EnqueueUrl(url, node.sourceUrl, node.depth, ACTIVATION, later, priority);
    }

    method TouchEnlarges(ghost before: Moment, url: string, potential: real, interactions: Option<nat>)
      requires Valid() && UrlId(url) in graph.nodes
      requires Enlarged(before, [], [], Now())
      modifies graph`nodes
      ensures Valid() && graph.nodes == Patched(old(graph.nodes), url, Patch(None, None, Some(potential), interactions))
      ensures Enlarged(before, [], [], Now())
      ensures UrlId(url) in graph.nodes && graph.nodes[UrlId(url)].potential == potential
      ensures graph.nodes[UrlId(url)].interactions == Or(interactions, old(graph.nodes[UrlId(url)].interactions))
    {
      Touch(url, potential, interactions);
      EnlargedByTouch(before, [], url, Patch(None, None, Some(potential), interactions), old(Now()), Now());
    }

    method Touch(url: string, potential: real, interactions: Option<nat>)
      requires Valid() && UrlId(url) in graph.nodes
      modifies graph`nodes
      ensures Valid() && graph.nodes == Patched(old(graph.nodes), url, Patch(None, None, Some(potential), interactions))
      ensures graph.nodes.Keys == old(graph.nodes.Keys)
    {
      var patch := Patch(None, None, Some(potential), interactions);
      PatchCoherent(graph.nodes, graph.edges, frontier.queued, url, patch);
      graph.SetUrlStatus(url, patch);
    }

    // -- Edges of a page that has been fetched --

    ghost function Loose(): set<string>
      reads this, graph
    {
      LooseEdges(graph.nodes, graph.edges)
    }

    /** The target is new, there is no room for it, and the edge to it is new as well. */
    ghost predicate LeadsNowhere(url: string, target: string)
      reads this, graph
    {
      && UrlId(target) !in graph.nodes && graph.Full()
      && EdgeId(Edge(REDIRECT, UrlId(url), UrlId(target))) !in graph.edges
    }

    /**
     * A redirect, or a canonical link, adds its edge even when its target was refused.  Then, and
     * only then, the graph gets an edge that leads nowhere.
     */
    method LinkAlias(item: Item, target: string, source: Option<string>, reason: string)
      requires Valid() && UrlId(item.url) in graph.nodes && Known(graph.nodes, source) && NormalUrl(target) && target != item.url
      modifies this`deltas, graph`nodes, graph`edges, graph`urlNodeCount
      ensures Valid() && graph.nodes.Keys >= old(graph.nodes.Keys)
      ensures Joined(REDIRECT, UrlId(item.url), UrlId(target))
      ensures NewUrlsAt(old(graph.nodes), graph.nodes, item.depth, source) && AnnouncedAs(old(deltas), deltas, reason)
      ensures Loose() <= old(Loose()) <==> !old(LeadsNowhere(item.url, target))
    {
      var nodes, rejected := AddUrlNode(target, item.depth, source);
      KnownIsNormal(graph.nodes, item.url);
      UrlEdge(REDIRECT, item.url, target);
      var edges := AddAlias(item.url, target);
      Announce(reason, nodes, edges);
    }

    method AddAlias(url: string, target: string) returns (created: seq<Edge>)
      requires Valid() && UrlId(url) in graph.nodes && LinkEdge(Edge(REDIRECT, UrlId(url), UrlId(target)))
      modifies graph`edges
      ensures Valid() && Joined(REDIRECT, UrlId(url), UrlId(target))
      ensures var id := EdgeId(Edge(REDIRECT, UrlId(url), UrlId(target)));
        Loose() == old(Loose()) +
          if id !in old(graph.edges) && UrlId(target) !in graph.nodes then {id} else {}
    {
      var e := Edge(REDIRECT, UrlId(url), UrlId(target));
      LinkCoherent(graph.nodes, graph.edges, frontier.queued, e);
      created := graph.UpsertEdge(REDIRECT, UrlId(url), UrlId(target));
      LinkEdgeIsThere(graph.edges, e);
    }

    /** Where a fetch ended up, if that can be normalised. */
    method RecordRedirect(item: Item, responseUrl: string)
      requires Valid() && UrlId(item.url) in graph.nodes && Known(graph.nodes, item.sourceUrl)
      modifies this`deltas, graph`nodes, graph`edges, graph`urlNodeCount
      ensures Valid() && graph.nodes.Keys >= old(graph.nodes.Keys)
      ensures NewUrlsAt(old(graph.nodes), graph.nodes, item.depth, Given(item.sourceUrl)) && AnnouncedAs(old(deltas), deltas, REDIRECTED)
      ensures var final := Normalized(responseUrl, None);
        Loose() <= old(Loose()) <==> !(final.Some? && final.value != item.url && old(LeadsNowhere(item.url, final.value)))
    {
      var normalized := normalize(responseUrl, None);
      var finalUrl := Or(Given(normalized), item.url);
      if finalUrl != item.url {
        LinkAlias(item, finalUrl, Given(item.sourceUrl), REDIRECTED);
      }
    }

    method RecordCanonical(item: Item, href: string)
      requires Valid() && UrlId(item.url) in graph.nodes
      modifies this`deltas, graph`nodes, graph`edges, graph`urlNodeCount
      ensures Valid() && graph.nodes.Keys >= old(graph.nodes.Keys)
      ensures NewUrlsAt(old(graph.nodes), graph.nodes, item.depth, Given(Some(item.url))) && AnnouncedAs(old(deltas), deltas, CANONICAL)
      ensures var target := Normalized(href, Given(Some(item.url)));
        Loose() <= old(Loose()) <==> !(target.Some? && target.value != item.url && old(LeadsNowhere(item.url, target.value)))
    {
      var target := Given(normalize(href, Given(Some(item.url))));
      if target.Some? && target.value != item.url {
        LinkAlias(item, target.value, Given(Some(item.url)), CANONICAL);
      }
    }

    /** A page's content type is a node, and the page is joined to it unless the identifier is taken. */
    method RecordContent(item: Item, contentType: string)
      requires Valid() && UrlId(item.url) in graph.nodes
      modifies this`deltas, graph`nodes, graph`edges, graph`urlNodeCount
      ensures Valid() && Grown(old(Now()), [], [], Now())
      ensures graph.nodes.Keys == old(graph.nodes.Keys) + {NodeId(ContentNode, contentType)}
      ensures AnnouncedAs(old(deltas), deltas, CONTENT_TYPE)
      ensures graph.edges == WithEdge(old(graph.edges), ContentEdge(item.url, contentType))
      ensures Joined(CONTENT, UrlId(item.url), NodeId(ContentNode, contentType)) <==> !Overlapped(old(graph.edges), item.url, contentType)
    {
      ContentEdgeIsThereIff(graph.edges, item.url, contentType);
      var nodes := AddContentNode(contentType);
      ghost var between := Now();
      var edges := JoinContent(item.url, contentType);
      GrownThen(old(Now()), nodes, [], between, [], edges, Now());
      assert nodes + [] == nodes && [] + edges == edges;
      AnnounceGrown(old(Now()), CONTENT_TYPE, nodes, edges);
    }

    method JoinContent(url: string, contentType: string) returns (created: seq<Edge>)
      requires Valid() && UrlId(url) in graph.nodes && NodeId(ContentNode, contentType) in graph.nodes
      modifies graph`edges
      ensures Valid() && graph.edges == WithEdge(old(graph.edges), ContentEdge(url, contentType))
      ensures Grown(old(Now()), [], created, Now())
    {
      KnownIsNormal(graph.nodes, url);
      LinkCoherent(graph.nodes, graph.edges, frontier.queued, ContentEdge(url, contentType));
      ghost var before := Now();
      created := graph.UpsertEdge(CONTENT, UrlId(url), NodeId(ContentNode, contentType));
      GrownByEdge(before, ContentEdge(url, contentType), Now(), created);
    }

    method AddContentNode(contentType: string) returns (created: seq<Node>)
      requires Valid()
      modifies graph`nodes, graph`urlNodeCount
      ensures Valid() && graph.nodes.Keys == old(graph.nodes.Keys) + {NodeId(ContentNode, contentType)}
      ensures Grown(old(Now()), created, [], Now())
    {
      StaysCoherent(graph.nodes, graph.edges, frontier.queued, NewNode(ContentNode, contentType));
      ghost var before := Now();
      var _, node := graph.UpsertContentType(contentType);
      created := node;
      GrownByNode(before, NewNode(ContentNode, contentType), Now(), created);
    }

    // -- References found in pages --

    method AddReference(item: Item, r: Reference, target: string)
        returns (createdNodes: seq<Node>, createdEdges: seq<Edge>, rejected: bool)
      requires Valid() && UrlId(item.url) in graph.nodes && NormalUrl(target)
      modifies graph`nodes, graph`edges, graph`urlNodeCount
      ensures Valid()
      ensures NewUrlsAt(old(graph.nodes), graph.nodes, item.depth + 1, Given(Some(item.url)))
      ensures EdgeOrFull(graph.nodes, graph.edges, graph.Full(), item, r.edgeKind, Some(target))
      ensures rejected <==> UrlId(target) !in graph.nodes
      ensures !rejected ==> NodeId(DomainNode, hostOf(target)) in graph.nodes
      ensures deltas == old(deltas) && Grown(old(Now()), createdNodes, createdEdges, Now())
    {
      createdNodes, createdEdges, rejected := AddTarget(target, item.depth + 1, Given(Some(item.url)));
      if !rejected {
        AddedAreNew(old(graph.nodes), target, hostOf(target), item.depth + 1, Given(Some(item.url)));
        createdEdges := JoinUrls(old(Now()), createdNodes, createdEdges, r.edgeKind, item.url, target);
      }
    }

    /**
     * Turn a page's references into edges, and queue the targets that are to be followed.  The page's
     * URL is a node, so that no loose edge comes about, whichever targets are refused.  What is new is
     * returned, but for the edges that queueing announces itself.
     */
    method IngestSemanticReferences(item: Item, references: seq<Reference>, now: real, priorities: nat -> real)
        returns (createdNodes: seq<Node>, createdEdges: seq<Edge>, enqueued: nat)
      requires Valid() && UrlId(item.url) in graph.nodes
      modifies this`deltas, graph`nodes, graph`edges, graph`urlNodeCount, frontier
      ensures Valid()
      ensures Grown(old(Now()), createdNodes, createdEdges, Now())
      ensures NewUrlsAt(old(graph.nodes), graph.nodes, item.depth + 1, Given(Some(item.url)))
      ensures Ingested(normalize, currentMaxDepth, Now(), old(frontier.queued), frontier.queued, inFlightUrls,
                       item, references, enqueued, now)
    {
      createdNodes, createdEdges, enqueued := [], [], 0;
      GrownNot(Now());
      for i := 0 to |references|
        invariant Valid() && UrlId(item.url) in graph.nodes
        invariant Grown(old(Now()), createdNodes, createdEdges, Now())
        invariant NewUrlsAt(old(graph.nodes), graph.nodes, item.depth + 1, Given(Some(item.url)))
        invariant Ingested(normalize, currentMaxDepth, Now(), old(frontier.queued), frontier.queued, inFlightUrls,
                           item, references[..i], enqueued, now)
      {
        ghost var before, queued := Now(), frontier.queued;
        var ns, es, ok := IngestReference(item, references[i], now, priorities(i));
        IngestedMore(normalize, currentMaxDepth, before, ns, es, Now(), old(frontier.queued), queued, frontier.queued, inFlightUrls,
                     item, references, i, enqueued, ok, now, priorities(i));
        GrownThen(old(Now()), createdNodes, createdEdges, before, ns, es, Now());
        NewUrlsThen(old(graph.nodes), before.nodes, graph.nodes, item.depth + 1, Given(Some(item.url)));
        createdNodes, createdEdges := createdNodes + ns, createdEdges + es;
        if ok { enqueued := enqueued + 1; }
      }
      assert references[..|references|] == references;
    }

    method EnqueueFrom(item: Item, target: string, reason: string, now: real, priority: real) returns (outcome: Outcome)
      requires Valid() && UrlId(item.url) in graph.nodes
      modifies this`deltas, graph`nodes, graph`edges, graph`urlNodeCount, frontier
      ensures Valid() && Grown(old(Now()), [], [], Now())
      ensures NewUrlsAt(old(graph.nodes), graph.nodes, item.depth + 1, Given(Some(item.url)))
      ensures Judged(normalize, currentMaxDepth, Now(), old(frontier.queued), inFlightUrls, item, target, outcome, now)
      ensures frontier.queued == old(frontier.queued) +
        if outcome.Enqueued? then [Item(outcome.url, Some(item.url), item.depth + 1, now, priority)] else []
    {
      DecidedIsJudged(item, target, now);
      outcome := EnqueueUrl(target, Some(item.url), item.depth + 1, reason, now, priority);
    }

    lemma DecidedIsJudged(item: Item, target: string, now: real)
      requires Valid()
      ensures Judged(normalize, currentMaxDepth, Now(), frontier.queued, inFlightUrls, item, target,
                     Decide(target, Some(item.url), item.depth + 1, now), now)
    {
    }

    method IngestReference(item: Item, r: Reference, now: real, priority: real)
        returns (createdNodes: seq<Node>, createdEdges: seq<Edge>, ok: bool)
      requires Valid() && UrlId(item.url) in graph.nodes
      modifies this`deltas, graph`nodes, graph`edges, graph`urlNodeCount, frontier
      ensures Valid() && Treated(normalize, Now(), item, r)
      ensures Grown(old(Now()), createdNodes, createdEdges, Now())
      ensures NewUrlsAt(old(graph.nodes), graph.nodes, item.depth + 1, Given(Some(item.url)))
      ensures Advanced(normalize, currentMaxDepth, Now(), old(frontier.queued), frontier.queued, inFlightUrls, item, r, ok, now, priority)
    {
      var target := TargetOf(normalize, item, r);
      if target.None? {
        GrownNot(Now());
        NotFollowed(normalize, currentMaxDepth, Now(), frontier.queued, inFlightUrls, item, r, now, priority);
        return [], [], false;
      }
      var rejected;
      createdNodes, createdEdges, rejected := AddReference(item, r, target.value);
      if rejected {
        ok := false;
        NotFollowed(normalize, currentMaxDepth, Now(), frontier.queued, inFlightUrls, item, r, now, priority);
      } else {
        ghost var between := Now();
        ok := FollowIfAsked(item, r, target.value, now, priority);
        NewUrlsThen(old(graph.nodes), between.nodes, graph.nodes, item.depth + 1, Given(Some(item.url)));
        EdgeOrFullStays(between, Now(), item, r.edgeKind, target);
        GrownThen(old(Now()), createdNodes, createdEdges, between, [], [], Now());
        assert createdNodes + [] == createdNodes && createdEdges + [] == createdEdges;
      }
    }

    method FollowIfAsked(item: Item, r: Reference, target: string, now: real, priority: real) returns (ok: bool)
      requires Valid() && UrlId(item.url) in graph.nodes
      requires TargetOf(normalize, item, r) == Some(target) && UrlId(target) in graph.nodes
      modifies this`deltas, graph`nodes, graph`edges, graph`urlNodeCount, frontier
      ensures Valid() && Grown(old(Now()), [], [], Now())
      ensures NewUrlsAt(old(graph.nodes), graph.nodes, item.depth + 1, Given(Some(item.url)))
      ensures Advanced(normalize, currentMaxDepth, Now(), old(frontier.queued), frontier.queued, inFlightUrls, item, r, ok, now, priority)
    {
      ghost var queued := frontier.queued;
      if r.enqueue && !r.nofollow && item.depth + 1 <= currentMaxDepth {
        var outcome := EnqueueFrom(item, target, ReferenceReason(r), now, priority);
        JudgedAdvances(normalize, currentMaxDepth, Now(), queued, frontier.queued, inFlightUrls, item, r, outcome, now, priority);
        ok := outcome.Enqueued?;
      } else {
        GrownNot(Now());
        NotFollowed(normalize, currentMaxDepth, Now(), queued, inFlightUrls, item, r, now, priority);
        ok := false;
      }
    }
  }

  // ---------------------------------------------------------------------------------------
  // Potentials
  // ---------------------------------------------------------------------------------------

  datatype Reason = NotRipe | CoolingDown | Queued | Refused(why: Outcome)

  datatype Activation = NoUrl | NoRoom | Touched(url: string, reason: Reason, remaining: real)

  const DEFAULT_DELTA: real := 0.35
  const MAX_POTENTIAL: real := 8.0

  function ClampReal(x: real, lo: real, hi: real): real {
    if hi < x then (if hi < lo then lo else hi) else if x < lo then lo else x
  }

  function Raised(potential: real, delta: Option<real>): real {
    ClampReal(potential + Or(delta, DEFAULT_DELTA), 0.0, MAX_POTENTIAL)
  }

  /** To four decimals, halves up. */
  function Round4(x: real): real {
    (x * 10000.0 + 0.5).Floor as real / 10000.0
  }

  predicate Ripe(was: Node, delta: Option<real>, threshold: real) {
    Raised(was.potential, delta) >= threshold
  }

  /** The potential of a touched node, less what it pays. */
  function AfterTouch(was: Node, delta: Option<real>, paid: real): real {
    Round4(Raised(was.potential, delta) - paid)
  }

  /** The node of a URL as it is, or as it will be added. */
  function NodeFor(nodes: Nodes, url: string): Node {
    if UrlId(url) in nodes then nodes[UrlId(url)] else NewUrlNode(url, 0, None)
  }

  function Missing(nodes: Nodes, url: string, depth: int, source: Option<string>): seq<Node> {
    if UrlId(url) in nodes then [] else [NewUrlNode(url, depth, source)]
  }

  /** What touching a node comes to: the cooldown counts first, then the threshold, then the checks of the queue. */
  function Touching(url: string, remaining: real, ripe: bool, outcome: Outcome): Activation {
    var reason :=
      if remaining > 0.0 then CoolingDown else if !ripe then NotRipe
      else if outcome.Enqueued? then Queued else Refused(outcome);
    Touched(url, reason, remaining)
  }

  /** The item queued, with the source and the depth that the node has recorded. */
  function QueuedAgain(a: Activation, was: Node, outcome: Outcome, at: real, priority: real): seq<Item> {
    if a.Touched? && a.reason.Queued? && outcome.Enqueued? then [Item(outcome.url, was.sourceUrl, was.depth, at, priority)] else []
  }

  ghost predicate TouchedNode(nodes: Nodes, a: Activation, was: Node, raised: real, rest: real)
    requires a.Touched?
  {
    && UrlId(a.url) in nodes
    && nodes[UrlId(a.url)].potential == (if a.reason.Queued? then rest else raised)
    && nodes[UrlId(a.url)].interactions == was.interactions + 1
  }

  /** Rounding moves a potential by at most half a unit, and never out of its bounds. */
  lemma PotentialBounds(potential: real, delta: Option<real>)
    ensures 0.0 <= Round4(Raised(potential, delta)) <= MAX_POTENTIAL
    ensures -0.00005 < Round4(potential) - potential <= 0.00005
  {
  }

  /** A touch adds to the potential, within its bounds; that decides whether it is ripe, and what is left is rounded. */
  lemma TouchAdds(was: Node, delta: real, paid: real, threshold: real)
    ensures var sum := was.potential + delta;
      var raised := if sum < 0.0 then 0.0 else if sum > 8.0 then 8.0 else sum;
      && (Ripe(was, Some(delta), threshold) <==> raised >= threshold)
      && -0.00005 < AfterTouch(was, Some(delta), paid) - (raised - paid) <= 0.00005
    ensures AfterTouch(was, None, paid) == AfterTouch(was, Some(0.35), paid)
    ensures Ripe(was, None, threshold) <==> Ripe(was, Some(0.35), threshold)
  {
    PotentialBounds(Raised(was.potential, Some(delta)) - paid, None);
  }

  /** The content edge of another page overlaps with this one. */
  ghost predicate Overlapped(edges: Edges, url: string, contentType: string) {
    exists id, u, c :: id in edges && edges[id] == ContentEdge(u, c) && (Overlaps(url, contentType, u, c) || Overlaps(u, c, url, contentType))
  }

  lemma ContentEdgeIsThereIff(edges: Edges, url: string, contentType: string)
    requires Proper(edges) && forall id :: id in edges ==> EdgeId(edges[id]) == id
    ensures var e := ContentEdge(url, contentType);
      WithEdge(edges, e)[EdgeId(e)] == e <==> !Overlapped(edges, url, contentType)
  {
    var e := ContentEdge(url, contentType);
    if EdgeId(e) in edges {
      var other := edges[EdgeId(e)];
      if LinkEdge(other) {
        ContentNotLink(other, url, contentType);
      } else {
        var u, c :| NormalUrl(u) && other == ContentEdge(u, c);
        ContentEdgesClashIff(url, contentType, u, c);
      }
    }
    if id, u, c :| id in edges && edges[id] == ContentEdge(u, c) && (Overlaps(url, contentType, u, c) || Overlaps(u, c, url, contentType)) {
      ContentEdgesClashIff(url, contentType, u, c);
      OverlapsApart(url, contentType, u, c);
    }
  }

  lemma OverlapsApart(u: string, c: string, u': string, c': string)
    requires Overlaps(u, c, u', c') || Overlaps(u', c', u, c)
    ensures ContentEdge(u, c) != ContentEdge(u', c')
  {
    assert |u| != |u'|;
    NodeIdInjectiveUrl(u, u');
  }

  lemma NodeIdInjectiveUrl(u: string, u': string)
    ensures UrlId(u) == UrlId(u') ==> u == u'
  {
    if UrlId(u) == UrlId(u') { NodeIdInjective(UrlNode, u, UrlNode, u'); }
  }

  function ReferenceReason(r: Reference): string {
    if r.reason == "" then "semantic_reference" else r.reason
  }

  /** Nothing is announced when nothing is new. */
  function DeltaOf(reason: string, nodes: seq<Node>, edges: seq<Edge>): seq<Delta> {
    if nodes == [] && edges == [] then [] else [Delta(reason, nodes, edges)]
  }

  // ---------------------------------------------------------------------------------------
  // Runs that end badly
  // ---------------------------------------------------------------------------------------

  /** A weaver with room for so many pages and one of them queued. */
  method Seeded(maxUrlNodes: nat, normalize: (string, Option<string>) -> Option<string>, hostOf: string -> string, url: string)
      returns (w: Weaver)
    requires NormalizesWell(normalize, hostOf) && url != "" && normalize(url, None) == Some(url) && maxUrlNodes > 0
    ensures fresh(w) && fresh(w.graph) && fresh(w.frontier) && w.Valid()
    ensures w.normalize == normalize && w.graph.maxUrlNodes == maxUrlNodes && w.graph.urlNodeCount == 1
    ensures w.inFlightUrls == {} && w.currentMaxDepth == 3
    ensures w.graph.nodes.Keys == {UrlId(url), NodeId(DomainNode, hostOf(url))}
    ensures w.graph.edges == LinkedHalf(map[], url, hostOf(url)) && w.Loose() == {}
    ensures w.frontier.queued == [Item(url, None, 0, 0.0, 0.0)]
  {
    w := new Weaver(maxUrlNodes, 3, normalize, hostOf);
    var outcome := w.EnqueueUrl(url, None, 0, SEED, 0.0, 0.0);
    OneUrl(w.graph.nodes, url, hostOf(url));
  }

  lemma OneUrl(nodes: Nodes, url: string, host: string)
    requires Filed(nodes) && nodes.Keys == {UrlId(url), NodeId(DomainNode, host)}
    ensures UrlIds(nodes) == {UrlId(url)}
  {
    assert IdOf(nodes[UrlId(url)]) == UrlId(url) && IdOf(nodes[NodeId(DomainNode, host)]) == NodeId(DomainNode, host);
    NodeIdInjective(nodes[UrlId(url)].kind, nodes[UrlId(url)].name, UrlNode, url);
    NodeIdInjective(nodes[NodeId(DomainNode, host)].kind, nodes[NodeId(DomainNode, host)].name, DomainNode, host);
  }

  /** With room for one page, its redirect to another leaves an edge that leads nowhere. */
  method RedirectLeadsNowhere(
      normalize: (string, Option<string>) -> Option<string>, hostOf: string -> string, url: string, target: string)
      returns (w: Weaver)
    requires NormalizesWell(normalize, hostOf) && url != target && url != "" && target != ""
    requires normalize(url, None) == Some(url) && normalize(target, None) == Some(target)
    ensures fresh(w) && w.Valid() && w.Loose() != {}
  {
    w := Seeded(1, normalize, hostOf, url);
    OtherUrlMissing(url, hostOf(url), target);
    AliasIsNew(url, hostOf(url), target);
    assert w.LeadsNowhere(url, target);
    w.RecordRedirect(Item(url, None, 0, 0.0, 0.0), target);
  }

  /** So does a page's canonical link. */
  method CanonicalLeadsNowhere(
      normalize: (string, Option<string>) -> Option<string>, hostOf: string -> string, url: string, target: string)
      returns (w: Weaver)
    requires NormalizesWell(normalize, hostOf) && url != target && url != "" && target != ""
    requires normalize(url, None) == Some(url) && normalize(target, Some(url)) == Some(target)
    ensures fresh(w) && w.Valid() && w.Loose() != {}
  {
    w := Seeded(1, normalize, hostOf, url);
    OtherUrlMissing(url, hostOf(url), target);
    AliasIsNew(url, hostOf(url), target);
    assert w.LeadsNowhere(url, target);
    w.RecordCanonical(Item(url, None, 0, 0.0, 0.0), target);
  }

  lemma OtherUrlMissing(url: string, host: string, other: string)
    requires url != other
    ensures UrlId(other) !in {UrlId(url), NodeId(DomainNode, host)}
  {
    if UrlId(other) == UrlId(url) { NodeIdInjective(UrlNode, other, UrlNode, url); }
    if UrlId(other) == NodeId(DomainNode, host) { NodeIdInjective(UrlNode, other, DomainNode, host); }
  }

  lemma AliasIsNew(url: string, host: string, target: string)
    ensures EdgeId(Edge(REDIRECT, UrlId(url), UrlId(target))) !in LinkedHalf(map[], url, host)
  {
    var e, e' := Edge(REDIRECT, UrlId(url), UrlId(target)), Edge(MEMBER, UrlId(url), NodeId(DomainNode, host));
    if EdgeId(e) == EdgeId(e') { SameKind(e, e'); }
  }

  const PAGE: string := "http://h/"
  const HTML: string := "text/html"

  /** A page of the same host whose path spells out a content node behind a bar. */
  const BARRED: string := PAGE + ("|content:" + HTML)

  ghost predicate OnlyMembers(edges: Edges) {
    forall id :: id in edges ==> edges[id].kind == MEMBER
  }

  lemma OverlapsAt(edges: Edges, url: string, more: string, contentType: string)
    requires var e := ContentEdge(url, more + ("|content:" + contentType)); EdgeId(e) in edges && edges[EdgeId(e)] == e
    ensures Overlapped(edges, url + ("|content:" + more), contentType)
  {
    var c := more + ("|content:" + contentType);
    assert Overlaps(url, c, url + ("|content:" + more), contentType);
    assert edges[EdgeId(ContentEdge(url, c))] == ContentEdge(url, c);
  }

  /** Of two pages whose edges overlap the second is not joined to its content type. */
  method RecordBoth(w: Weaver, url: string, more: string, contentType: string)
    requires w.Valid() && OnlyMembers(w.graph.edges)
    requires UrlId(url) in w.graph.nodes && UrlId(url + ("|content:" + more)) in w.graph.nodes
    modifies w`deltas, w.graph`nodes, w.graph`edges, w.graph`urlNodeCount
    ensures w.Valid() && w.graph.nodes.Keys >= old(w.graph.nodes.Keys) + {NodeId(ContentNode, contentType)}
    ensures !w.Joined(CONTENT, UrlId(url + ("|content:" + more)), NodeId(ContentNode, contentType))
  {
    assert !Overlapped(w.graph.edges, url, more + ("|content:" + contentType));
    w.RecordContent(Item(url, None, 0, 0.0, 0.0), more + ("|content:" + contentType));
    OverlapsAt(w.graph.edges, url, more, contentType);
    w.RecordContent(Item(url + ("|content:" + more), None, 0, 0.0, 0.0), contentType);
  }

  /**
   * The page http://h/ of type text/html|content:text/html, and then http://h/|content:text/html of
   * type text/html: the second is not joined to its type, since the identifier is taken.
   */
  method ContentEdgeLost(normalize: (string, Option<string>) -> Option<string>, hostOf: string -> string) returns (w: Weaver)
    requires NormalizesWell(normalize, hostOf)
    requires normalize(PAGE, None) == Some(PAGE) && normalize(BARRED, None) == Some(BARRED)
    ensures fresh(w) && w.Valid()
    ensures UrlId(BARRED) in w.graph.nodes && NodeId(ContentNode, HTML) in w.graph.nodes
    ensures !w.Joined(CONTENT, UrlId(BARRED), NodeId(ContentNode, HTML))
  {
    w := SeededTwice(normalize, hostOf, PAGE, BARRED);
    RecordBoth(w, PAGE, HTML, HTML);
  }

  method SeededTwice(normalize: (string, Option<string>) -> Option<string>, hostOf: string -> string, url: string, other: string)
      returns (w: Weaver)
    requires NormalizesWell(normalize, hostOf) && url != "" && other != "" && url != other
    requires normalize(url, None) == Some(url) && normalize(other, None) == Some(other)
    ensures fresh(w) && fresh(w.graph) && w.Valid() && OnlyMembers(w.graph.edges)
    ensures UrlId(url) in w.graph.nodes && UrlId(other) in w.graph.nodes
  {
    w := Seeded(2, normalize, hostOf, url);
    OtherUrlMissing(url, hostOf(url), other);
    assert w.Decide(other, None, 0, 0.0) == Enqueued(other);
    SeedAlso(w, other);
  }

  method SeedAlso(w: Weaver, url: string)
    requires w.Valid() && OnlyMembers(w.graph.edges) && w.Decide(url, None, 0, 0.0) == Enqueued(url)
    modifies w`deltas, w.graph`nodes, w.graph`edges, w.graph`urlNodeCount, w.frontier
    ensures w.Valid() && OnlyMembers(w.graph.edges)
    ensures w.graph.nodes.Keys >= old(w.graph.nodes.Keys) + {UrlId(url)}
  {
    var outcome := w.EnqueueUrl(url, None, 0, SEED, 0.0, 0.0);
  }
}
