/** The crawl graph: nodes of three kinds, and edges between node identifiers. */
module Graph {
  import opened Basics
  import opened Wrappers
  import UrlNormal

  datatype NodeKind = UrlNode | DomainNode | ContentNode

  /** All fields but the first two are those of URL nodes. */
  datatype Node = Node(
    kind: NodeKind, name: string, depth: int, sourceUrl: Option<string>, status: string,
    cooldownUntil: real, potential: real, interactions: nat)

  datatype Edge = Edge(kind: string, source: string, target: string)

  function NodeId(kind: NodeKind, name: string): string {
    match kind
    case UrlNode => "url:" + name
    case DomainNode => "domain:" + name
    case ContentNode => "content:" + name
  }

  function UrlId(url: string): string {
    NodeId(UrlNode, url)
  }

  function IdOf(n: Node): string {
    NodeId(n.kind, n.name)
  }

  function EdgeId(e: Edge): string {
    e.kind + "|" + e.source + "|" + e.target
  }

  /** Node identifiers never clash. */
  lemma NodeIdInjective(k: NodeKind, l: string, k': NodeKind, l': string)
    requires NodeId(k, l) == NodeId(k', l')
    ensures k == k' && l == l'
  {
    var id, n := NodeId(k, l), match k case UrlNode => 4 case DomainNode => 7 case ContentNode => 8;
    assert id[0] == match k case UrlNode => 'u' case DomainNode => 'd' case ContentNode => 'c';
    assert id[0] == match k' case UrlNode => 'u' case DomainNode => 'd' case ContentNode => 'c';
    assert l == id[n..] && l' == id[n..];
  }

  // ---------------------------------------------------------------------------------------
  // Edge identifiers
  // ---------------------------------------------------------------------------------------

  const CONTENT: string := "content_membership"

  /** Normalised URLs are http or https, and have no double slash but the one behind the scheme. */
  predicate NormalUrl(u: string) {
    ("http://" <= u || "https://" <= u) && UrlNormal.NoDoubleSlash(u[SecondSlash(u)..])
  }

  function SecondSlash(u: string): nat {
    if "http://" <= u then 6 else 7
  }

  /** Either scheme, a host, and a path without empty names but at its end. */
  lemma NormalUrlIff(u: string)
    ensures NormalUrl(u) <==>
      ("http://" <= u && UrlNormal.NoDoubleSlash(u[6..])) || ("https://" <= u && UrlNormal.NoDoubleSlash(u[7..]))
  {
    if "http://" <= u { assert u[4] == ':'; }
    if "https://" <= u { assert u[4] == 's'; }
  }

  /** The edges between URLs, and from a URL to its domain: a host's name has no bar in it. */
  ghost predicate LinkEdge(e: Edge) {
    && '|' !in e.kind && e.kind != CONTENT
    && (exists u :: NormalUrl(u) && e.source == UrlId(u))
    && ('|' !in e.target || exists u :: NormalUrl(u) && e.target == UrlId(u))
  }

  function ContentEdge(url: string, contentType: string): Edge {
    Edge(CONTENT, UrlId(url), NodeId(ContentNode, contentType))
  }

  lemma FirstBar(a: string, b: string, a': string, b': string)
    requires '|' !in a && '|' !in a' && a + "|" + b == a' + "|" + b'
    ensures a == a' && b == b'
  {
    var s, s' := a + "|" + b, a' + "|" + b';
    assert s[|a|] == '|' && s'[|a'|] == '|';
    assert forall i :: 0 <= i < |a| ==> s[i] == a[i];
    assert forall i :: 0 <= i < |a'| ==> s'[i] == a'[i];
    assert a == s[..|a|] && b == s[|a| + 1..];
    assert a' == s'[..|a'|] && b' == s'[|a'| + 1..];
  }

  lemma SameKind(e: Edge, e': Edge)
    requires '|' !in e.kind && '|' !in e'.kind && EdgeId(e) == EdgeId(e')
    ensures e.kind == e'.kind && e.source + "|" + e.target == e'.source + "|" + e'.target
  {
    assert EdgeId(e) == e.kind + "|" + (e.source + "|" + e.target);
    assert EdgeId(e') == e'.kind + "|" + (e'.source + "|" + e'.target);
    FirstBar(e.kind, e.source + "|" + e.target, e'.kind, e'.source + "|" + e'.target);
  }

  /** If two such texts are equal, the bar in one of them stands for a part of the other's source. */
  lemma Overlap(s: string, t: string, s': string, t': string) returns (x: string)
    requires s + "|" + t == s' + "|" + t' && |s| < |s'|
    ensures s' == s + "|" + x && t == x + "|" + t'
  {
    var all := s + "|" + t;
    x := all[|s| + 1..|s'|];
    assert s' == all[..|s'|] && s == all[..|s|] && all[|s|] == '|';
    assert t == all[|s| + 1..] && all[|s'|] == '|' && t' == all[|s'| + 1..];
  }

  lemma SameSource(s: string, t: string, s': string, t': string)
    requires s + "|" + t == s' + "|" + t' && |s| == |s'|
    ensures s == s' && t == t'
  {
    var all := s + "|" + t;
    assert s == all[..|s|] && s' == all[..|s|] && t == all[|s| + 1..] && t' == all[|s| + 1..];
  }

  lemma SameTail(u: string, more: string, u': string)
    ensures UrlId(u') == UrlId(u) + more ==> u' == u + more
  {
    if UrlId(u') == UrlId(u) + more {
      assert u' == UrlId(u')[4..] && u == UrlId(u)[4..];
      assert (UrlId(u) + more)[4..] == UrlId(u)[4..] + more;
    }
  }

  /** A normalised URL cannot swallow the beginning of another one's identifier, up to a bar in it. */
  lemma NoUrlInside(u: string, u': string, v: string, x: string, rest: string)
    requires NormalUrl(u) && NormalUrl(u') && NormalUrl(v)
    requires UrlId(u') == UrlId(u) + "|" + x
    ensures UrlId(v) != x + "|" + rest
  {
    SameTail(u, "|" + x, u');
    assert UrlId(u) + "|" + x == UrlId(u) + ("|" + x) && u' == u + "|" + x;
    var id, k := UrlId(v), SecondSlash(v) - 1;
    assert id == "url:" + v && id[4 + k] == v[k] == '/' && id[5 + k] == v[k + 1] == '/';
    assert forall i :: 0 <= i <= 5 + k ==> id[i] != '|';
    if id == x + "|" + rest {
      assert id[|x|] == '|';
      assert x[4 + k] == '/' && x[5 + k] == '/';
      var n := |u| + 5 + k;
      assert u'[n] == '/' && u'[n + 1] == '/';
      OneDoubleSlash(u', n);
    }
  }

  lemma OneDoubleSlash(u: string, n: nat)
    requires NormalUrl(u) && SecondSlash(u) <= n && n + 1 < |u|
    ensures !(u[n] == '/' && u[n + 1] == '/')
  {
    var m := SecondSlash(u);
    assert u[m..][n - m] == u[n] && u[m..][n - m + 1] == u[n + 1];
  }

  /**
   * An edge between URLs or to a domain shares its identifier with no other edge of the graph, bars
   * in the URLs or not.
   */
  lemma LinkEdgeUnique(e: Edge, e': Edge)
    requires LinkEdge(e) && LinkEdge(e') && EdgeId(e) == EdgeId(e')
    ensures e == e'
  {
    SameKind(e, e');
    if |e.source| < |e'.source| {
      LinksApart(e, e');
    } else if |e'.source| < |e.source| {
      LinksApart(e', e);
    } else {
      SameSource(e.source, e.target, e'.source, e'.target);
    }
  }

  lemma LinksApart(e: Edge, e': Edge)
    requires LinkEdge(e) && LinkEdge(e') && e.source + "|" + e.target == e'.source + "|" + e'.target
    ensures |e.source| >= |e'.source|
  {
    if |e.source| < |e'.source| {
      var x := Overlap(e.source, e.target, e'.source, e'.target);
      assert e.target[|x|] == '|';
      var u :| NormalUrl(u) && e.source == UrlId(u);
      var u' :| NormalUrl(u') && e'.source == UrlId(u');
      var v :| NormalUrl(v) && e.target == UrlId(v);
      NoUrlInside(u, u', v, x, e'.target);
    }
  }

  lemma ContentNotLink(e: Edge, url: string, contentType: string)
    requires LinkEdge(e)
    ensures EdgeId(e) != EdgeId(ContentEdge(url, contentType))
  {
    if EdgeId(e) == EdgeId(ContentEdge(url, contentType)) { SameKind(e, ContentEdge(url, contentType)); }
  }

  /** The second page's URL goes on from the first one's with the node of what its content type begins with. */
  ghost predicate Overlaps(u: string, c: string, u': string, c': string) {
    exists w :: u' == u + ("|content:" + w) && c == w + ("|content:" + c')
  }

  /**
   * The edges of two pages to their content types share an identifier exactly if they are the same,
   * or if one page's URL and the other's content type both spell out a content node behind a bar.
   */
  lemma ContentEdgesClashIff(u: string, c: string, u': string, c': string)
    ensures EdgeId(ContentEdge(u, c)) == EdgeId(ContentEdge(u', c')) <==>
      (u == u' && c == c') || Overlaps(u, c, u', c') || Overlaps(u', c', u, c)
  {
    if EdgeId(ContentEdge(u, c)) == EdgeId(ContentEdge(u', c')) {
      SameKind(ContentEdge(u, c), ContentEdge(u', c'));
      if |u| < |u'| {
        ClashOverlaps(u, c, u', c');
      } else if |u'| < |u| {
        ClashOverlaps(u', c', u, c);
      } else {
        SameSource(UrlId(u), NodeId(ContentNode, c), UrlId(u'), NodeId(ContentNode, c'));
        NodeIdInjective(UrlNode, u, UrlNode, u');
        NodeIdInjective(ContentNode, c, ContentNode, c');
      }
    }
    if w :| u' == u + ("|content:" + w) && c == w + ("|content:" + c') { SameContentEdgeId(u, w, c'); }
    if w :| u == u' + ("|content:" + w) && c' == w + ("|content:" + c) { SameContentEdgeId(u', w, c); }
  }

  lemma ClashOverlaps(u: string, c: string, u': string, c': string)
    requires |u| < |u'|
    requires UrlId(u) + "|" + NodeId(ContentNode, c) == UrlId(u') + "|" + NodeId(ContentNode, c')
    ensures Overlaps(u, c, u', c')
  {
    var id, id' := NodeId(ContentNode, c), NodeId(ContentNode, c');
    var x := Overlap(UrlId(u), id, UrlId(u'), id');
    assert id[|x|] == '|';
    assert |x| >= 8;
    var w := x[8..];
    assert c == id[8..] && id == x + ("|" + id') && "|" + id' == "|content:" + c';
    DropFront(x, "|" + id', 8);
    assert c == w + ("|content:" + c');
    assert x == id[..|x|] && x[..8] == "content:" && x == "content:" + w;
    assert UrlId(u') == UrlId(u) + ("|content:" + w);
    SameTail(u, "|content:" + w, u');
  }

  lemma SameContentEdgeId(u: string, w: string, c: string)
    ensures EdgeId(ContentEdge(u, w + ("|content:" + c))) == EdgeId(ContentEdge(u + ("|content:" + w), c))
  {
    Appended(CONTENT + "|", "url:", u, "|content:" + w);
    Spliced(CONTENT + "|" + UrlId(u), w, c);
  }

  lemma Appended(a: string, b: string, c: string, d: string)
    ensures a + (b + (c + d)) == a + (b + c) + d
  {
  }

  lemma Spliced(front: string, w: string, c: string)
    ensures front + "|" + ("content:" + (w + ("|content:" + c))) == front + ("|content:" + w) + "|" + ("content:" + c)
  {
  }

  type Nodes = map<string, Node>
  type Edges = map<string, Edge>

  function UrlIds(nodes: Nodes): set<string> {
    set id | id in nodes && nodes[id].kind.UrlNode?
  }

  function WithNode(nodes: Nodes, n: Node): Nodes {
    if IdOf(n) in nodes then nodes else nodes[IdOf(n) := n]
  }

  function WithEdge(edges: Edges, e: Edge): Edges {
    if EdgeId(e) in edges then edges else edges[EdgeId(e) := e]
  }

  /** Nodes are filed under their identifiers. */
  ghost predicate Filed(nodes: Nodes) {
    forall id :: id in nodes ==> IdOf(nodes[id]) == id
  }

  /** The edges that lead to or from something that is no node. */
  function LooseEdges(nodes: Nodes, edges: Edges): set<string> {
    set id | id in edges && !(edges[id].source in nodes && edges[id].target in nodes)
  }

  /** Every edge of the graph is one that pages and their content types give rise to. */
  ghost predicate Proper(edges: Edges) {
    forall id :: id in edges ==> LinkEdge(edges[id]) || exists u, c :: NormalUrl(u) && edges[id] == ContentEdge(u, c)
  }

  ghost predicate UrlsNormal(nodes: Nodes) {
    forall id :: id in nodes && nodes[id].kind.UrlNode? ==> NormalUrl(nodes[id].name)
  }

  /** The URLs that the nodes came from are nodes themselves; an empty one stands for none. */
  ghost predicate Known(nodes: Nodes, source: Option<string>) {
    source.Some? && source.value != "" ==> UrlId(source.value) in nodes
  }

  ghost predicate SourcesKnown(nodes: Nodes) {
    forall id :: id in nodes ==> Known(nodes, nodes[id].sourceUrl)
  }

  /** Of the nodes that there were nothing has changed but perhaps the status. */
  ghost predicate KeepsNodes(nodes: Nodes, nodes': Nodes) {
    forall id :: id in nodes && id in nodes' ==> nodes'[id] == nodes[id].(status := nodes'[id].status)
  }

  /** The URLs that are new were found at this depth, on this page, and were never touched nor fetched. */
  ghost predicate NewUrlsAt(nodes: Nodes, nodes': Nodes, depth: int, source: Option<string>) {
    forall id :: id in nodes' && id !in nodes && nodes'[id].kind.UrlNode? ==> FoundAt(nodes'[id], depth, source)
  }

  predicate FoundAt(n: Node, depth: int, source: Option<string>) {
    n.depth == depth && n.sourceUrl == source && n.cooldownUntil == 0.0 && n.potential == 0.0 && n.interactions == 0
  }

  lemma NewUrlsThen(a: Nodes, b: Nodes, c: Nodes, depth: int, source: Option<string>)
    requires NewUrlsAt(a, b, depth, source) && NewUrlsAt(b, c, depth, source)
    requires a.Keys <= b.Keys <= c.Keys && KeepsNodes(b, c)
    ensures NewUrlsAt(a, c, depth, source)
  {
  }

  ghost predicate KeepsEdges(edges: Edges, edges': Edges) {
    forall id :: id in edges ==> id in edges' && edges'[id] == edges[id]
  }

  ghost predicate NoNewUrls(nodes: Nodes, nodes': Nodes) {
    forall u :: UrlId(u) in nodes' ==> UrlId(u) in nodes
  }

  /** Growth of a graph: one that was full has no new URL nodes, and no edge is loose that was not. */
  ghost predicate Grew(nodes: Nodes, edges: Edges, full: bool, nodes': Nodes, edges': Edges) {
    && nodes.Keys <= nodes'.Keys && KeepsEdges(edges, edges')
    && (full ==> NoNewUrls(nodes, nodes'))
    && LooseEdges(nodes', edges') <= LooseEdges(nodes, edges)
  }

  lemma FewerLoose(nodes: Nodes, nodes': Nodes, edges: Edges)
    requires nodes.Keys <= nodes'.Keys
    ensures LooseEdges(nodes', edges) <= LooseEdges(nodes, edges)
  {
  }

  function NodeIds(ns: seq<Node>): seq<string> {
    seq(|ns|, i requires 0 <= i < |ns| => IdOf(ns[i]))
  }

  function EdgeIds(es: seq<Edge>): seq<string> {
    seq(|es|, i requires 0 <= i < |es| => EdgeId(es[i]))
  }

  /** `ids` lists what is new, each once. */
  ghost predicate Adds(ids: seq<string>, before: set<string>, after: set<string>) {
    && (forall i :: 0 <= i < |ids| ==> ids[i] !in before)
    && (forall i, j :: 0 <= i < j < |ids| ==> ids[i] != ids[j])
    && (forall id :: id in after <==> id in before || id in ids)
  }

  /** `ids` are new, each listed once, and whatever else is new was announced. */
  ghost predicate Accounted(before: set<string>, ids: seq<string>, announced: set<string>, after: set<string>) {
    && before <= after
    && (forall i :: 0 <= i < |ids| ==> ids[i] in after && ids[i] !in before)
    && (forall i, j :: 0 <= i < j < |ids| ==> ids[i] != ids[j])
    && (forall id :: id in after ==> id in before || id in ids || id in announced)
  }

  lemma AccountedThen(
      a: set<string>, first: seq<string>, announced: set<string>, b: set<string>,
      second: seq<string>, announced': set<string>, c: set<string>)
    requires Accounted(a, first, announced, b) && Accounted(b, second, announced', c)
    requires announced <= announced'
    ensures Accounted(a, first + second, announced', c)
  {
  }

  datatype Insertion = Present | Rejected | Created(node: Node)

  class GraphStore {
    var maxUrlNodes: nat
    var nodes: Nodes
    var edges: Edges
    var urlNodeCount: nat

    /** The largest cap there has been. */
    ghost var highestCap: nat

    ghost predicate Valid()
      reads this
    {
      && Filed(nodes)
      && (forall id :: id in edges ==> EdgeId(edges[id]) == id)
      && urlNodeCount == |UrlIds(nodes)|
      && urlNodeCount <= highestCap && maxUrlNodes <= highestCap
    }

    constructor (maxUrlNodes: nat)
      ensures Valid() && nodes == map[] && edges == map[] && this.maxUrlNodes == maxUrlNodes
      ensures highestCap == maxUrlNodes
    {
      this.maxUrlNodes, nodes, edges, urlNodeCount, highestCap := maxUrlNodes, map[], map[], 0, maxUrlNodes;
    }

    /** A new crawl may lower the cap below the number of nodes there are; none is dropped. */
    method SetCap(maxUrlNodes: nat)
      requires Valid()
      modifies this`maxUrlNodes, this`highestCap
      ensures Valid() && this.maxUrlNodes == maxUrlNodes
      ensures highestCap == if old(highestCap) < maxUrlNodes then maxUrlNodes else old(highestCap)
    {
      this.maxUrlNodes := maxUrlNodes;
      if highestCap < maxUrlNodes { highestCap := maxUrlNodes; }
    }

    /** Is there no room for another URL node? */
    predicate Full()
      reads this
    {
      urlNodeCount >= maxUrlNodes
    }

    /** Only URL nodes count against the cap, and they are refused when it is reached. */
    method InsertNode(node: Node) returns (r: Insertion)
      requires Valid()
      modifies this`nodes, this`urlNodeCount
      ensures Valid()
      ensures r ==
        if IdOf(node) in old(nodes) then Present
        else if node.kind.UrlNode? && old(Full()) then Rejected
        else Created(node)
      ensures nodes == if r.Rejected? then old(nodes) else WithNode(old(nodes), node)
      ensures urlNodeCount == old(urlNodeCount) + if r.Created? && node.kind.UrlNode? then 1 else 0
      ensures old(urlNodeCount) <= maxUrlNodes ==> urlNodeCount <= maxUrlNodes
    {
      var id := IdOf(node);
      if id in nodes {
        return Present;
      }
      if node.kind.UrlNode? && urlNodeCount >= maxUrlNodes {
        return Rejected;
      }
      assert UrlIds(nodes[id := node]) == UrlIds(nodes) + if node.kind.UrlNode? then {id} else {};
      nodes := nodes[id := node];
      if node.kind.UrlNode? {
        urlNodeCount := urlNodeCount + 1;
      }
      r := Created(node);
    }

    method UpsertDomain(domain: string) returns (id: string, created: seq<Node>)
      requires Valid()
      modifies this`nodes, this`urlNodeCount
      ensures Valid() && id == NodeId(DomainNode, domain) && id in nodes
      ensures nodes == WithNode(old(nodes), NewNode(DomainNode, domain))
      ensures created == if id in old(nodes) then [] else [NewNode(DomainNode, domain)]
      ensures urlNodeCount == old(urlNodeCount)
      ensures forall u :: UrlId(u) in nodes <==> UrlId(u) in old(nodes)
      ensures Adds(NodeIds(created), old(nodes.Keys), nodes.Keys)
    {
      forall u ensures UrlId(u) != NodeId(DomainNode, domain) {
        if UrlId(u) == NodeId(DomainNode, domain) { NodeIdInjective(UrlNode, u, DomainNode, domain); }
      }
      id := NodeId(DomainNode, domain);
      var r := InsertNode(NewNode(DomainNode, domain));
      created := if r.Created? then [r.node] else [];
      if r.Created? { assert NodeIds(created) == [id]; }
    }

    method UpsertContentType(contentType: string) returns (id: string, created: seq<Node>)
      requires Valid()
      modifies this`nodes, this`urlNodeCount
      ensures Valid() && id == NodeId(ContentNode, contentType) && id in nodes
      ensures nodes == WithNode(old(nodes), NewNode(ContentNode, contentType))
      ensures created == if id in old(nodes) then [] else [NewNode(ContentNode, contentType)]
      ensures urlNodeCount == old(urlNodeCount)
      ensures forall u :: UrlId(u) in nodes <==> UrlId(u) in old(nodes)
      ensures Adds(NodeIds(created), old(nodes.Keys), nodes.Keys)
    {
      forall u ensures UrlId(u) != NodeId(ContentNode, contentType) {
        if UrlId(u) == NodeId(ContentNode, contentType) { NodeIdInjective(UrlNode, u, ContentNode, contentType); }
      }
      id := NodeId(ContentNode, contentType);
      var r := InsertNode(NewNode(ContentNode, contentType));
      created := if r.Created? then [r.node] else [];
      if r.Created? { assert NodeIds(created) == [id]; }
    }

    method UpsertUrl(url: string, depth: int, sourceUrl: Option<string>) returns (id: string, created: seq<Node>, rejected: bool)
      requires Valid()
      modifies this`nodes, this`urlNodeCount
      ensures Valid() && id == UrlId(url)
      ensures rejected <==> id !in old(nodes) && old(Full())
      ensures rejected <==> id !in nodes
      ensures nodes == if rejected then old(nodes) else WithNode(old(nodes), NewUrlNode(url, depth, sourceUrl))
      ensures created == if rejected || id in old(nodes) then [] else [NewUrlNode(url, depth, sourceUrl)]
      ensures urlNodeCount == old(urlNodeCount) + |created|
      ensures old(urlNodeCount) <= maxUrlNodes ==> urlNodeCount <= maxUrlNodes
      ensures rejected ==> Full()
      ensures Adds(NodeIds(created), old(nodes.Keys), nodes.Keys)
    {
      id := UrlId(url);
      if id in nodes {
        return id, [], false;
      }
      var r := InsertNode(NewUrlNode(url, depth, sourceUrl));
      created := if r.Created? then [r.node] else [];
      if r.Created? { assert NodeIds(created) == [id]; }
      rejected := r.Rejected?;
    }

    /** Does nothing for a URL that is not in the graph. */
    method SetUrlStatus(url: string, patch: Patch)
      requires Valid()
      modifies this`nodes
      ensures Valid()
      ensures nodes == Patched(old(nodes), url, patch)
    {
      var id := UrlId(url);
      if id !in nodes {
        return;
      }
      PatchedKeeps(nodes, url, patch);
      nodes := Patched(nodes, url, patch);
    }

    /** The edge is new unless its identifier is taken; it is loose exactly if one of its ends is missing. */
    method UpsertEdge(kind: string, source: string, target: string) returns (created: seq<Edge>)
      requires Valid()
      modifies this`edges
      ensures Valid() && EdgeId(Edge(kind, source, target)) in edges
      ensures edges == WithEdge(old(edges), Edge(kind, source, target))
      ensures created == if EdgeId(Edge(kind, source, target)) in old(edges) then [] else [Edge(kind, source, target)]
      ensures Adds(EdgeIds(created), old(edges.Keys), edges.Keys)
      ensures LooseEdges(nodes, edges) == LooseEdges(nodes, old(edges)) +
        if created != [] && !(source in nodes && target in nodes) then {EdgeId(Edge(kind, source, target))} else {}
    {
      var edge := Edge(kind, source, target);
      if EdgeId(edge) in edges {
        return [];
      }
      edges := edges[EdgeId(edge) := edge];
      created := [edge];
      assert EdgeIds(created) == [EdgeId(edge)];
    }
  }

  function NewNode(kind: NodeKind, name: string): Node {
    Node(kind, name, 0, None, "", 0.0, 0.0, 0)
  }

  function NewUrlNode(url: string, depth: int, sourceUrl: Option<string>): Node {
    Node(UrlNode, url, depth, sourceUrl, "discovered", 0.0, 0.0, 0)
  }

  /** What is to be changed about a URL node. */
  datatype Patch = Patch(status: Option<string>, cooldownUntil: Option<real>, potential: Option<real>, interactions: Option<nat>)

  function Or<T>(x: Option<T>, y: T): T {
    if x.Some? then x.value else y
  }

  function Patched(nodes: Nodes, url: string, p: Patch): Nodes {
    var id := UrlId(url);
    if id !in nodes then nodes
    else
      var n := nodes[id];
      nodes[id := n.(status := Or(p.status, n.status), cooldownUntil := Or(p.cooldownUntil, n.cooldownUntil),
                     potential := Or(p.potential, n.potential), interactions := Or(p.interactions, n.interactions))]
  }

  /** A patch changes no identity. */
  lemma PatchedKeeps(nodes: Nodes, url: string, p: Patch)
    ensures var after := Patched(nodes, url, p);
      && after.Keys == nodes.Keys
      && UrlIds(after) == UrlIds(nodes)
      && (forall id :: id in nodes ==>
            && after[id].sourceUrl == nodes[id].sourceUrl && after[id].kind == nodes[id].kind && after[id].name == nodes[id].name
            && after[id].depth == nodes[id].depth)
  {
  }

  /** In a proper graph a link edge whose identifier is taken is there itself. */
  lemma LinkEdgeIsThere(edges: Edges, e: Edge)
    requires Proper(edges) && LinkEdge(e) && EdgeId(e) in edges && EdgeId(edges[EdgeId(e)]) == EdgeId(e)
    ensures edges[EdgeId(e)] == e
  {
    var other := edges[EdgeId(e)];
    if LinkEdge(other) {
      LinkEdgeUnique(e, other);
    } else {
      var u, c :| NormalUrl(u) && other == ContentEdge(u, c);
      ContentNotLink(e, u, c);
    }
  }
}
