/**
 * The web-graph builder: a fold over crawl records that numbers every URL densely in
 * first-seen order, keeps an id-to-node table with `processed`/`hasLinks` flags, and
 * records one directed edge per outbound link, duplicates and self-loops included.
 */
module WebGraph {
  import opened Wrappers
  import Seqs

  type Url = string

  /**
   * One persisted crawl record: its subject URL and its `links` list, `None` when the
   * record has no `links` key at all.
   */
  datatype Record = Record(url: Url, links: Option<seq<Url>>)

  datatype NodeInfo = NodeInfo(url: Url, processed: bool, hasLinks: bool)

  /** A directed edge `(fromId, toId)`. */
  type Edge = (nat, nat)

  /** The builder's state: `link_to_id`, `id_to_info` and `edges`. */
  datatype Graph = Graph(linkToId: map<Url, nat>, idToInfo: map<nat, NodeInfo>, edges: seq<Edge>)

  /** The links a record contributes; a missing `links` key behaves like an empty list. */
  function OutLinks(r: Record): seq<Url>
  {
    match r.links
    case None => []
    case Some(ls) => ls
  }

  const Empty: Graph := Graph(map[], map[], [])

  /** The number of nodes, `len(link_to_id)`. */
  function NodeCount(g: Graph): nat
  {
    |g.linkToId|
  }

  /**
   * The two tables are inverse to each other over the ids `0..n-1`, and every edge
   * endpoint is one of those ids.
   */
  ghost predicate Valid(g: Graph)
  {
    && (forall u :: u in g.linkToId ==>
          g.linkToId[u] in g.idToInfo && g.idToInfo[g.linkToId[u]].url == u)
    && (forall i :: i in g.idToInfo ==>
          i < |g.linkToId| && g.idToInfo[i].url in g.linkToId && g.linkToId[g.idToInfo[i].url] == i)
    && (forall i: nat :: i < |g.linkToId| ==> i in g.idToInfo)
    && (forall k :: 0 <= k < |g.edges| ==> g.edges[k].0 < |g.linkToId| && g.edges[k].1 < |g.linkToId|)
  }

  /** `h` is a later state of `g`: no assigned id changed and the edge list only grew. */
  ghost predicate Grows(g: Graph, h: Graph)
  {
    && (forall u :: u in g.linkToId ==> u in h.linkToId && h.linkToId[u] == g.linkToId[u])
    && g.edges <= h.edges
  }

  /** The node-table entry of a known URL. */
  function Info(g: Graph, u: Url): NodeInfo
    requires Valid(g) && u in g.linkToId
  {
    g.idToInfo[g.linkToId[u]]
  }

  /** Gives `u` the next free id, `len(link_to_id)`, unless it already has one. */
  function Intern(g: Graph, u: Url): (r: Graph)
    requires Valid(g)
    ensures Valid(r) && Grows(g, r) && r.edges == g.edges
    ensures r.linkToId.Keys == g.linkToId.Keys + {u}
    ensures u !in g.linkToId ==>
              r.linkToId[u] == NodeCount(g) && Info(r, u) == NodeInfo(u, false, false)
    ensures forall v :: v in g.linkToId ==> Info(r, v) == Info(g, v)
  {
    if u in g.linkToId then g
    else
      FreshIdKeeps(g, u);
      Fresh(g, u)
  }

  /** The state after giving a new URL the next id. */
  function Fresh(g: Graph, u: Url): Graph
  {
    var n := |g.linkToId|;
    Graph(g.linkToId[u := n], g.idToInfo[n := NodeInfo(u, false, false)], g.edges)
  }

  lemma FreshIdValid(g: Graph, u: Url)
    requires Valid(g) && u !in g.linkToId
    ensures Valid(Fresh(g, u))
  {
    var n := |g.linkToId|;
    var r := Fresh(g, u);
    assert n !in g.idToInfo;
    assert |r.linkToId| == n + 1;
    forall v | v in r.linkToId
      ensures r.linkToId[v] in r.idToInfo && r.idToInfo[r.linkToId[v]].url == v
    {
      if v != u {
        assert r.linkToId[v] == g.linkToId[v] && g.linkToId[v] != n;
      }
    }
    forall i | i in r.idToInfo
      ensures i < |r.linkToId| && r.idToInfo[i].url in r.linkToId && r.linkToId[r.idToInfo[i].url] == i
    {
      if i != n {
        assert g.idToInfo[i].url != u;
      }
    }
  }

  lemma FreshIdKeeps(g: Graph, u: Url)
    requires Valid(g) && u !in g.linkToId
    ensures Valid(Fresh(g, u)) && Grows(g, Fresh(g, u))
    ensures forall v :: v in g.linkToId ==> Info(Fresh(g, u), v) == Info(g, v)
  {
    var n := |g.linkToId|;
    var r := Fresh(g, u);
    FreshIdValid(g, u);
    forall v | v in g.linkToId ensures Info(r, v) == Info(g, v) {
      assert g.linkToId[v] != n;
    }
  }

  /** Replaces the flags of node `id`, keeping its URL. */
  function SetInfo(g: Graph, id: nat, info: NodeInfo): (r: Graph)
    requires Valid(g) && id in g.idToInfo && info.url == g.idToInfo[id].url
    ensures Valid(r) && r.linkToId == g.linkToId && r.edges == g.edges
    ensures forall v :: v in g.linkToId ==>
              Info(r, v) == if g.linkToId[v] == id then info else Info(g, v)
  {
    g.(idToInfo := g.idToInfo[id := info])
  }

  /** The edges `(fromId, id(l))` for the links `ls`, in list order. */
  function LinkEdges(fromId: nat, ls: seq<Url>, m: map<Url, nat>): (es: seq<Edge>)
    requires forall l :: l in ls ==> l in m
    ensures |es| == |ls|
  {
    if |ls| == 0 then []
    else LinkEdges(fromId, ls[..|ls| - 1], m) + [(fromId, m[ls[|ls| - 1]])]
  }

  /** `LinkEdges` reads the id map only at the links themselves. */
  lemma {:induction false} LinkEdgesAgree(fromId: nat, ls: seq<Url>, m1: map<Url, nat>, m2: map<Url, nat>)
    requires forall l :: l in ls ==> l in m1 && l in m2 && m1[l] == m2[l]
    ensures LinkEdges(fromId, ls, m1) == LinkEdges(fromId, ls, m2)
  {
    if |ls| > 0 {
      LinkEdgesAgree(fromId, ls[..|ls| - 1], m1, m2);
    }
  }

  /** One iteration of the inner loop: number `l` if new, then append the edge to it. */
  function AddLink(g: Graph, fromId: nat, l: Url): (r: Graph)
    requires Valid(g) && fromId < NodeCount(g)
    ensures Valid(r) && Grows(g, r) && fromId < NodeCount(r)
    ensures r.linkToId.Keys == g.linkToId.Keys + {l}
    ensures r.edges == g.edges + [(fromId, r.linkToId[l])]
    ensures forall v :: v in g.linkToId ==> Info(r, v) == Info(g, v)
    ensures forall v :: v in r.linkToId && v !in g.linkToId ==> Info(r, v) == NodeInfo(v, false, false)
  {
    var g1 := Intern(g, l);
    g1.(edges := g1.edges + [(fromId, g1.linkToId[l])])
  }

  /** The inner loop over one record's links. */
  function AddLinks(g: Graph, fromId: nat, ls: seq<Url>): (r: Graph)
    requires Valid(g) && fromId < NodeCount(g)
    ensures Valid(r) && Grows(g, r) && fromId < NodeCount(r)
  {
    if |ls| == 0 then g
    else
      var p := AddLinks(g, fromId, ls[..|ls| - 1]);
      var r := AddLink(p, fromId, ls[|ls| - 1]);
      GrowsTrans(g, p, r);
      r
  }

  lemma AddLinksPrefixStep(g: Graph, fromId: nat, ls: seq<Url>, j: nat)
    requires Valid(g) && fromId < NodeCount(g) && j < |ls|
    ensures AddLinks(g, fromId, ls[..j + 1]) == AddLink(AddLinks(g, fromId, ls[..j]), fromId, ls[j])
  {
    assert ls[..j + 1][..j] == ls[..j];
  }

  lemma GrowsTrans(a: Graph, b: Graph, c: Graph)
    requires Grows(a, b) && Grows(b, c)
    ensures Grows(a, c)
  {
  }

  /** The inner loop numbers exactly the URLs it has not seen before among the links. */
  lemma AddLinksKeys(g: Graph, fromId: nat, ls: seq<Url>)
    requires Valid(g) && fromId < NodeCount(g)
    ensures forall v :: v in AddLinks(g, fromId, ls).linkToId <==> v in g.linkToId || v in ls
  {
    AddLinksNumbers(g, fromId, ls);
    NumberAllKeys(g.linkToId, ls);
  }

  /** The inner loop appends one edge `(fromId, id(l))` per link `l`, in list order. */
  lemma {:induction false} AddLinksEdges(g: Graph, fromId: nat, ls: seq<Url>)
    requires Valid(g) && fromId < NodeCount(g)
    ensures var r := AddLinks(g, fromId, ls);
            && (forall l :: l in ls ==> l in r.linkToId)
            && r.edges == g.edges + LinkEdges(fromId, ls, r.linkToId)
  {
    if |ls| > 0 {
      var front, last := ls[..|ls| - 1], ls[|ls| - 1];
      AddLinksEdges(g, fromId, front);
      var p := AddLinks(g, fromId, front);
      var r := AddLinks(g, fromId, ls);
      assert r == AddLink(p, fromId, last);
      Seqs.FrontLast(ls);
      LinkEdgesSnoc(g.edges, p, r, fromId, front, last);
    }
  }

  /** One more link: its edge goes at the end, and the earlier edges read the same ids. */
  lemma LinkEdgesSnoc(start: seq<Edge>, p: Graph, r: Graph, fromId: nat, front: seq<Url>, last: Url)
    requires forall l :: l in front ==> l in p.linkToId
    requires p.edges == start + LinkEdges(fromId, front, p.linkToId)
    requires Grows(p, r) && last in r.linkToId
    requires r.edges == p.edges + [(fromId, r.linkToId[last])]
    ensures forall l :: l in front + [last] ==> l in r.linkToId
    ensures r.edges == start + LinkEdges(fromId, front + [last], r.linkToId)
  {
    var ls := front + [last];
    assert ls[..|ls| - 1] == front;
    LinkEdgesAgree(fromId, front, p.linkToId, r.linkToId);
  }

  /** The inner loop keeps the flags of known nodes and adds new nodes unflagged. */
  lemma {:induction false} AddLinksInfo(g: Graph, fromId: nat, ls: seq<Url>)
    requires Valid(g) && fromId < NodeCount(g)
    ensures var r := AddLinks(g, fromId, ls);
            && (forall v :: v in g.linkToId ==> Info(r, v) == Info(g, v))
            && (forall v :: v in r.linkToId && v !in g.linkToId ==> Info(r, v) == NodeInfo(v, false, false))
  {
    if |ls| > 0 {
      AddLinksInfo(g, fromId, ls[..|ls| - 1]);
    }
  }

  /**
   * The first half of one record: number its subject, mark it processed, and mark it as
   * having links when its link list is non-empty.
   */
  function Mark(g: Graph, rec: Record): (r: Graph)
    requires Valid(g)
    ensures Valid(r) && Grows(g, r) && r.edges == g.edges
    ensures r.linkToId.Keys == g.linkToId.Keys + {rec.url}
    ensures forall v :: v in r.linkToId ==>
              Info(r, v) == if v != rec.url then Info(g, v)
                            else NodeInfo(v, true, (v in g.linkToId && Info(g, v).hasLinks) || |OutLinks(rec)| > 0)
  {
    var g1 := Intern(g, rec.url);
    var fromId := g1.linkToId[rec.url];
    var g2 := SetInfo(g1, fromId, g1.idToInfo[fromId].(processed := true));
    if |OutLinks(rec)| == 0 then g2
    else SetInfo(g2, fromId, g2.idToInfo[fromId].(hasLinks := true))
  }

  /**
   * One crawl record: mark its subject, then, when its link list is non-empty, add one
   * edge per link.
   */
  function Step(g: Graph, rec: Record): (r: Graph)
    requires Valid(g)
    ensures Valid(r) && Grows(g, r) && rec.url in r.linkToId
  {
    var m := Mark(g, rec);
    if |OutLinks(rec)| == 0 then m
    else
      var r := AddLinks(m, m.linkToId[rec.url], OutLinks(rec));
      GrowsTrans(g, m, r);
      r
  }

  /** A record adds its subject and its links to the node set, and nothing else. */
  lemma StepKeys(g: Graph, rec: Record)
    requires Valid(g)
    ensures forall v :: v in Step(g, rec).linkToId <==>
              v in g.linkToId || v == rec.url || v in OutLinks(rec)
  {
    var m := Mark(g, rec);
    if |OutLinks(rec)| > 0 {
      var fromId := m.linkToId[rec.url];
      assert Step(g, rec) == AddLinks(m, fromId, OutLinks(rec));
      AddLinksKeys(m, fromId, OutLinks(rec));
    }
  }

  /** A record appends one edge from its subject per entry of its link list. */
  lemma StepEdges(g: Graph, rec: Record)
    requires Valid(g)
    ensures var r := Step(g, rec);
            && (forall l :: l in OutLinks(rec) ==> l in r.linkToId)
            && r.edges == g.edges + LinkEdges(r.linkToId[rec.url], OutLinks(rec), r.linkToId)
  {
    var m := Mark(g, rec);
    if |OutLinks(rec)| > 0 {
      AddLinksEdges(m, m.linkToId[rec.url], OutLinks(rec));
    }
  }

  /**
   * A record sets `processed` on its subject, sets `hasLinks` on it when its link list is
   * non-empty, and changes no other flag; new link targets start unflagged.
   */
  lemma StepFlags(g: Graph, rec: Record)
    requires Valid(g)
    ensures var r := Step(g, rec);
            forall v :: v in r.linkToId ==>
              && Info(r, v).processed == ((v in g.linkToId && Info(g, v).processed) || v == rec.url)
              && Info(r, v).hasLinks ==
                   ((v in g.linkToId && Info(g, v).hasLinks) || (v == rec.url && |OutLinks(rec)| > 0))
  {
    var m := Mark(g, rec);
    var r := Step(g, rec);
    if |OutLinks(rec)| > 0 {
      var fromId := m.linkToId[rec.url];
      assert r == AddLinks(m, fromId, OutLinks(rec));
      AddLinksInfo(m, fromId, OutLinks(rec));
      forall v | v in r.linkToId
        ensures Info(r, v).processed == ((v in g.linkToId && Info(g, v).processed) || v == rec.url)
        ensures Info(r, v).hasLinks == ((v in g.linkToId && Info(g, v).hasLinks) || v == rec.url)
      {
        if v in m.linkToId {
          assert Info(r, v) == Info(m, v);
        } else {
          assert Info(r, v) == NodeInfo(v, false, false);
          assert v !in g.linkToId && v != rec.url;
        }
      }
    }
  }

  /** `create_edges_list` over the records in the order given. */
  function Build(rs: seq<Record>): (g: Graph)
    ensures Valid(g)
  {
    if |rs| == 0 then Empty
    else Step(Build(rs[..|rs| - 1]), rs[|rs| - 1])
  }

  lemma BuildPrefixStep(rs: seq<Record>, i: nat)
    requires i < |rs|
    ensures Build(rs[..i + 1]) == Step(Build(rs[..i]), rs[i])
  {
    assert rs[..i + 1][..i] == rs[..i];
  }

  lemma BuildSnoc(front: seq<Record>, last: Record)
    ensures Build(front + [last]) == Step(Build(front), last)
  {
    var rs := front + [last];
    assert rs[..|rs| - 1] == front;
  }

  // ---------------------------------------------------------------------------
  // Reference definitions: what the builder's result should be, stated directly
  // over the records rather than through the builder's state.
  // ---------------------------------------------------------------------------

  /** URLs that are the subject of some record. */
  function Subjects(rs: seq<Record>): set<Url>
  {
    set r | r in rs :: r.url
  }

  /** URLs that appear in some record's link list. */
  function Targets(rs: seq<Record>): set<Url>
  {
    set r, l | r in rs && l in OutLinks(r) :: l
  }

  /** URLs that are the subject of some record whose link list is non-empty. */
  function LinkingSubjects(rs: seq<Record>): set<Url>
  {
    set r | r in rs && |OutLinks(r)| > 0 :: r.url
  }

  /** The sum of the lengths of the records' link lists. */
  function TotalLinks(rs: seq<Record>): nat
  {
    if |rs| == 0 then 0 else TotalLinks(rs[..|rs| - 1]) + |OutLinks(rs[|rs| - 1])|
  }

  /** `m` numbers every subject and every link target of `rs`. */
  ghost predicate Covers(rs: seq<Record>, m: map<Url, nat>)
  {
    forall r :: r in rs ==> r.url in m && forall l :: l in OutLinks(r) ==> l in m
  }

  /**
   * The edge list the records call for under the numbering `m`: record by record, one
   * edge from the subject to each entry of its link list.
   */
  function EdgesOf(rs: seq<Record>, m: map<Url, nat>): (es: seq<Edge>)
    requires Covers(rs, m)
    ensures |es| == TotalLinks(rs)
  {
    if |rs| == 0 then []
    else
      var last := rs[|rs| - 1];
      assert last in rs;
      EdgesOf(rs[..|rs| - 1], m) + LinkEdges(m[last.url], OutLinks(last), m)
  }

  lemma {:induction false} EdgesOfAgree(rs: seq<Record>, m1: map<Url, nat>, m2: map<Url, nat>)
    requires Covers(rs, m1) && Covers(rs, m2)
    requires forall u :: u in m1 && u in m2 ==> m1[u] == m2[u]
    ensures EdgesOf(rs, m1) == EdgesOf(rs, m2)
  {
    if |rs| > 0 {
      var last := rs[|rs| - 1];
      assert last in rs;
      EdgesOfAgree(rs[..|rs| - 1], m1, m2);
      LinkEdgesAgree(m1[last.url], OutLinks(last), m1, m2);
    }
  }

  lemma SnocSets(rs: seq<Record>, r: Record)
    ensures forall v :: v in Subjects(rs + [r]) <==> v in Subjects(rs) || v == r.url
    ensures forall v :: v in Targets(rs + [r]) <==> v in Targets(rs) || v in OutLinks(r)
    ensures forall v :: v in LinkingSubjects(rs + [r]) <==>
              v in LinkingSubjects(rs) || (v == r.url && |OutLinks(r)| > 0)
  {
    forall x ensures x in rs + [r] <==> x in rs || x == r {
    }
  }

  // ---------------------------------------------------------------------------
  // Properties of the builder.
  // ---------------------------------------------------------------------------

  /**
   * Ids are dense: the node table has exactly the keys `0..n-1`, and those are also
   * exactly the ids the URL table hands out; every edge endpoint is below `n`.
   */
  lemma DenseIds(g: Graph)
    requires Valid(g)
    ensures g.idToInfo.Keys == IdRange(NodeCount(g))
    ensures g.linkToId.Values == IdRange(NodeCount(g))
    ensures |g.idToInfo| == NodeCount(g)
    ensures forall k :: 0 <= k < |g.edges| ==> g.edges[k].0 < NodeCount(g) && g.edges[k].1 < NodeCount(g)
  {
    var ids := IdRange(NodeCount(g));
    forall i | i in ids ensures i in g.linkToId.Values {
      var u := g.idToInfo[i].url;
      assert g.linkToId[u] == i;
    }
  }

  /** The ids `0..n-1`. */
  function IdRange(n: nat): (ids: set<nat>)
    ensures forall i: nat :: i in ids <==> i < n
    ensures |ids| == n
  {
    if n == 0 then {} else IdRange(n - 1) + {n - 1}
  }

  /**
   * The two tables agree: each numbered URL's node carries that URL, each node's URL is
   * numbered with that node's id, so a URL has exactly one id.
   */
  lemma TablesAgree(rs: seq<Record>)
    ensures var g := Build(rs);
            && (forall u :: u in g.linkToId ==> g.idToInfo[g.linkToId[u]].url == u)
            && (forall i :: i in g.idToInfo ==> g.linkToId[g.idToInfo[i].url] == i)
            && (forall u, v :: u in g.linkToId && v in g.linkToId && u != v ==> g.linkToId[u] != g.linkToId[v])
  {
  }

  /** The nodes are exactly the subjects and the link targets of the records. */
  lemma {:induction false} BuildNodes(rs: seq<Record>)
    ensures forall v :: v in Build(rs).linkToId <==> v in Subjects(rs) || v in Targets(rs)
  {
    if |rs| > 0 {
      var front, last := rs[..|rs| - 1], rs[|rs| - 1];
      Seqs.FrontLast(rs);
      var g := Build(front);
      assert Build(rs) == Step(g, last);
      BuildNodes(front);
      StepKeys(g, last);
      SnocSets(front, last);
    }
  }

  /**
   * `processed` holds exactly for the subjects of records; `hasLinks` holds exactly for
   * subjects of a record with a non-empty link list. A URL seen only as a link target
   * keeps both flags false.
   */
  lemma {:induction false} BuildFlags(rs: seq<Record>)
    ensures var g := Build(rs);
            forall v :: v in g.linkToId ==>
              && (Info(g, v).processed <==> v in Subjects(rs))
              && (Info(g, v).hasLinks <==> v in LinkingSubjects(rs))
  {
    if |rs| > 0 {
      var front, last := rs[..|rs| - 1], rs[|rs| - 1];
      BuildFlags(front);
      BuildNodes(front);
      BuildFlagsStep(front, last);
      Seqs.FrontLast(rs);
    }
  }

  lemma BuildFlagsStep(front: seq<Record>, last: Record)
    requires var g := Build(front);
             forall v :: v in g.linkToId ==>
               && (Info(g, v).processed <==> v in Subjects(front))
               && (Info(g, v).hasLinks <==> v in LinkingSubjects(front))
    requires forall v :: v in Build(front).linkToId <==> v in Subjects(front) || v in Targets(front)
    ensures var r := Build(front + [last]);
            forall v :: v in r.linkToId ==>
              && (Info(r, v).processed <==> v in Subjects(front + [last]))
              && (Info(r, v).hasLinks <==> v in LinkingSubjects(front + [last]))
  {
    var g := Build(front);
    var r := Step(g, last);
    BuildSnoc(front, last);
    StepFlags(g, last);
    SnocSets(front, last);
    forall v | v in r.linkToId
      ensures Info(r, v).processed <==> v in Subjects(front + [last])
      ensures Info(r, v).hasLinks <==> v in LinkingSubjects(front + [last])
    {
      if v !in g.linkToId {
        assert v !in Subjects(front) && v !in LinkingSubjects(front) by {
          assert LinkingSubjects(front) <= Subjects(front);
        }
      }
    }
  }

  /**
   * The edge list is, record by record in input order, one edge from the record's
   * subject to each entry of its link list, in list order, duplicates and self-loops
   * kept; so there are as many edges as link-list entries in all.
   */
  lemma {:induction false} BuildEdges(rs: seq<Record>)
    ensures Covers(rs, Build(rs).linkToId)
    ensures Build(rs).edges == EdgesOf(rs, Build(rs).linkToId)
    ensures |Build(rs).edges| == TotalLinks(rs)
  {
    if |rs| > 0 {
      var front, last := rs[..|rs| - 1], rs[|rs| - 1];
      BuildEdges(front);
      BuildEdgesStep(front, last);
      Seqs.FrontLast(rs);
    }
  }

  lemma BuildEdgesStep(front: seq<Record>, last: Record)
    requires Covers(front, Build(front).linkToId)
    requires Build(front).edges == EdgesOf(front, Build(front).linkToId)
    ensures Covers(front + [last], Build(front + [last]).linkToId)
    ensures Build(front + [last]).edges == EdgesOf(front + [last], Build(front + [last]).linkToId)
  {
    var g := Build(front);
    var r := Step(g, last);
    BuildSnoc(front, last);
    StepKeys(g, last);
    StepEdges(g, last);
    assert Covers(front, r.linkToId);
    CoversSnoc(front, last, r.linkToId);
    EdgesOfAgree(front, g.linkToId, r.linkToId);
    EdgesOfSnoc(front, last, r.linkToId);
  }

  lemma CoversSnoc(front: seq<Record>, last: Record, m: map<Url, nat>)
    requires Covers(front, m) && last.url in m && forall l :: l in OutLinks(last) ==> l in m
    ensures Covers(front + [last], m)
  {
    forall x | x in front + [last] ensures x in front || x == last {
    }
  }

  lemma EdgesOfSnoc(front: seq<Record>, last: Record, m: map<Url, nat>)
    requires Covers(front + [last], m)
    ensures Covers(front, m)
    ensures EdgesOf(front + [last], m) == EdgesOf(front, m) + LinkEdges(m[last.url], OutLinks(last), m)
  {
    var rs := front + [last];
    assert rs[..|rs| - 1] == front;
  }

  /**
   * Ids are stable: the state after any prefix of the records is extended, never
   * rewritten, by the remaining records.
   */
  lemma {:induction false} BuildStable(rs: seq<Record>, k: nat)
    requires k <= |rs|
    ensures Grows(Build(rs[..k]), Build(rs))
    decreases |rs| - k
  {
    if k < |rs| {
      BuildStable(rs, k + 1);
      BuildGrowsStep(rs, k);
      GrowsTrans(Build(rs[..k]), Build(rs[..k + 1]), Build(rs));
    } else {
      assert rs[..k] == rs;
    }
  }

  lemma BuildGrowsStep(rs: seq<Record>, k: nat)
    requires k < |rs|
    ensures Grows(Build(rs[..k]), Build(rs[..k + 1]))
  {
    BuildPrefixStep(rs, k);
  }

  /** Node completeness: the number of nodes is the number of distinct URLs in the records. */
  lemma NodeCountIsDistinctUrls(rs: seq<Record>)
    ensures NodeCount(Build(rs)) == |Subjects(rs) + Targets(rs)|
  {
    BuildNodes(rs);
    assert Build(rs).linkToId.Keys == Subjects(rs) + Targets(rs);
  }

  // ---------------------------------------------------------------------------
  // First-seen numbering.
  // ---------------------------------------------------------------------------

  /**
   * The URLs in the order the builder looks at them: each record's subject, then the
   * entries of its link list.
   */
  function Visits(rs: seq<Record>): seq<Url>
  {
    if |rs| == 0 then []
    else Visits(rs[..|rs| - 1]) + [rs[|rs| - 1].url] + OutLinks(rs[|rs| - 1])
  }

  function Elems(s: seq<Url>): set<Url>
  {
    set x | x in s
  }

  /** The position of the first occurrence of `u` in `s`. */
  function FirstIndex(s: seq<Url>, u: Url): (k: nat)
    requires u in s
    ensures k < |s| && s[k] == u && u !in s[..k]
  {
    if s[0] == u then 0
    else
      var k := 1 + FirstIndex(s[1..], u);
      assert s[..k] == [s[0]] + s[1..][..k - 1];
      k
  }

  lemma {:induction false} FirstIndexSnoc(s: seq<Url>, x: Url, u: Url)
    requires u in s
    ensures FirstIndex(s + [x], u) == FirstIndex(s, u)
  {
    if s[0] != u {
      assert (s + [x])[1..] == s[1..] + [x];
      FirstIndexSnoc(s[1..], x, u);
    }
  }

  /**
   * `m` numbers the URLs of `s` in first-seen order: the id of `u` is the number of
   * distinct URLs that occur in `s` before the first occurrence of `u`.
   */
  ghost predicate FirstSeenNumbering(m: map<Url, nat>, s: seq<Url>)
  {
    && (forall u :: u in m <==> u in s)
    && (forall u :: u in m ==> m[u] == |Elems(s[..FirstIndex(s, u)])|)
  }

  /** Numbering `u` when first seen keeps the numbering in first-seen order. */
  lemma NumberFirstSeen(m: map<Url, nat>, u: Url, s: seq<Url>)
    requires FirstSeenNumbering(m, s)
    ensures FirstSeenNumbering(if u in m then m else m[u := |m|], s + [u])
  {
    var m' := if u in m then m else m[u := |m|];
    var s' := s + [u];
    forall v ensures v in m' <==> v in s' {
      assert v in s' <==> v in s || v == u;
    }
    forall v | v in m'
      ensures m'[v] == |Elems(s'[..FirstIndex(s', v)])|
    {
      if v in s {
        FirstIndexSnoc(s, u, v);
        assert s'[..FirstIndex(s', v)] == s[..FirstIndex(s, v)];
      } else {
        assert FirstIndex(s', u) == |s|;
        assert s'[..|s|] == s;
        assert Elems(s) == m.Keys;
      }
    }
  }

  /** Gives `u` the next id `|m|` unless it has one: the numbering step alone. */
  function Number(m: map<Url, nat>, u: Url): map<Url, nat>
  {
    if u in m then m else m[u := |m|]
  }

  /** Numbers the URLs of `s` in order, starting from `m`. */
  function NumberAll(m: map<Url, nat>, s: seq<Url>): map<Url, nat>
  {
    if |s| == 0 then m else Number(NumberAll(m, s[..|s| - 1]), s[|s| - 1])
  }

  /** Numbering a sequence adds exactly its URLs to the keys. */
  lemma {:induction false} NumberAllKeys(m: map<Url, nat>, s: seq<Url>)
    ensures forall v :: v in NumberAll(m, s) <==> v in m || v in s
  {
    if |s| > 0 {
      var front := s[..|s| - 1];
      NumberAllKeys(m, front);
      Seqs.FrontLast(s);
    }
  }

  lemma {:induction false} NumberAllAppend(m: map<Url, nat>, a: seq<Url>, b: seq<Url>)
    ensures NumberAll(m, a + b) == NumberAll(NumberAll(m, a), b)
  {
    if |b| == 0 {
      assert a + b == a;
    } else {
      assert (a + b)[..|a + b| - 1] == a + b[..|b| - 1];
      NumberAllAppend(m, a, b[..|b| - 1]);
    }
  }

  lemma {:induction false} NumberAllFirstSeen(s: seq<Url>)
    ensures FirstSeenNumbering(NumberAll(map[], s), s)
  {
    if |s| > 0 {
      var front := s[..|s| - 1];
      NumberAllFirstSeen(front);
      NumberFirstSeen(NumberAll(map[], front), s[|s| - 1], front);
      Seqs.FrontLast(s);
    }
  }

  lemma {:induction false} AddLinksNumbers(g: Graph, fromId: nat, ls: seq<Url>)
    requires Valid(g) && fromId < NodeCount(g)
    ensures AddLinks(g, fromId, ls).linkToId == NumberAll(g.linkToId, ls)
  {
    if |ls| > 0 {
      var front, last := ls[..|ls| - 1], ls[|ls| - 1];
      AddLinksNumbers(g, fromId, front);
      var p := AddLinks(g, fromId, front);
      assert AddLinks(g, fromId, ls).linkToId == Intern(p, last).linkToId;
    }
  }

  lemma StepNumbers(g: Graph, rec: Record)
    requires Valid(g)
    ensures Step(g, rec).linkToId == NumberAll(g.linkToId, [rec.url] + OutLinks(rec))
  {
    var m := Mark(g, rec);
    NumberAllAppend(g.linkToId, [rec.url], OutLinks(rec));
    assert NumberAll(g.linkToId, [rec.url]) == m.linkToId by {
      assert [rec.url][..0] == [];
      assert Intern(g, rec.url).linkToId == m.linkToId;
    }
    if |OutLinks(rec)| > 0 {
      AddLinksNumbers(m, m.linkToId[rec.url], OutLinks(rec));
    }
  }

  lemma VisitsSnoc(rs: seq<Record>)
    requires |rs| > 0
    ensures Visits(rs) == Visits(rs[..|rs| - 1]) + ([rs[|rs| - 1].url] + OutLinks(rs[|rs| - 1]))
  {
  }

  lemma BuildNumbersStep(rs: seq<Record>)
    requires |rs| > 0
    requires Build(rs[..|rs| - 1]).linkToId == NumberAll(map[], Visits(rs[..|rs| - 1]))
    ensures Build(rs).linkToId == NumberAll(map[], Visits(rs))
  {
    var front, last := rs[..|rs| - 1], rs[|rs| - 1];
    VisitsSnoc(rs);
    StepNumbers(Build(front), last);
    NumberAllAppend(map[], Visits(front), [last.url] + OutLinks(last));
  }

  lemma {:induction false} BuildNumbers(rs: seq<Record>)
    ensures Build(rs).linkToId == NumberAll(map[], Visits(rs))
  {
    if |rs| > 0 {
      BuildNumbers(rs[..|rs| - 1]);
      BuildNumbersStep(rs);
    }
  }

  /**
   * Ids follow first sight: a URL's id is the number of distinct URLs the builder saw
   * before it, so the first URL seen gets 0 and each new URL gets the next id.
   */
  lemma {:induction false} BuildFirstSeen(rs: seq<Record>)
    ensures FirstSeenNumbering(Build(rs).linkToId, Visits(rs))
  {
    BuildNumbers(rs);
    NumberAllFirstSeen(Visits(rs));
  }

  /** A longer prefix that adds a URL not in the shorter one has strictly more URLs. */
  lemma PrefixElems(s: seq<Url>, i: nat, j: nat, u: Url)
    requires i < j <= |s| && s[i] == u && u !in s[..i]
    ensures |Elems(s[..i])| < |Elems(s[..j])|
  {
    forall x | x in Elems(s[..i]) ensures x in Elems(s[..j]) {
      var k :| 0 <= k < i && s[k] == x;
      assert s[..j][k] == x;
    }
    assert s[..j][i] == u;
    var a, b := Elems(s[..i]), Elems(s[..j]);
    assert u in b - a;
    assert b == a + (b - a) && a !! (b - a);
  }

  /** Under a first-seen numbering, the URL seen first has the smaller id. */
  lemma NumberingOrder(m: map<Url, nat>, s: seq<Url>, u: Url, v: Url)
    requires FirstSeenNumbering(m, s) && u in m && v in m
    ensures m[u] < m[v] <==> FirstIndex(s, u) < FirstIndex(s, v)
  {
    var i, j := FirstIndex(s, u), FirstIndex(s, v);
    if i < j {
      PrefixElems(s, i, j, u);
    } else if j < i {
      PrefixElems(s, j, i, v);
    }
  }

  /** Of two URLs, the one the builder sees first has the smaller id. */
  lemma IdsOrderedByFirstSight(rs: seq<Record>, u: Url, v: Url)
    requires u in Build(rs).linkToId && v in Build(rs).linkToId
    ensures u in Visits(rs) && v in Visits(rs)
    ensures Build(rs).linkToId[u] < Build(rs).linkToId[v] <==>
              FirstIndex(Visits(rs), u) < FirstIndex(Visits(rs), v)
  {
    BuildFirstSeen(rs);
    NumberingOrder(Build(rs).linkToId, Visits(rs), u, v);
  }

  // ---------------------------------------------------------------------------
  // The builder as the source writes it.
  // ---------------------------------------------------------------------------

  /**
   * `create_edges_list`: the outer loop over the records, updating the URL table, the
   * node table and the edge list in place; it computes exactly `Build(records)`.
   */
  method CreateEdgesList(records: seq<Record>)
    returns (linkToId: map<Url, nat>, idToInfo: map<nat, NodeInfo>, edges: seq<Edge>)
    ensures Graph(linkToId, idToInfo, edges) == Build(records)
  {
    linkToId, idToInfo, edges := map[], map[], [];
    var i := 0;
    while i < |records|
      invariant i <= |records|
      invariant Graph(linkToId, idToInfo, edges) == Build(records[..i])
    {
      var g := ProcessRecord(Graph(linkToId, idToInfo, edges), records[i]);
      linkToId, idToInfo, edges := g.linkToId, g.idToInfo, g.edges;
      BuildPrefixStep(records, i);
      i := i + 1;
    }
    assert records[..i] == records;
  }

  /** The body of the outer loop for one record `doc`. */
  method ProcessRecord(g: Graph, doc: Record) returns (r: Graph)
    requires Valid(g)
    ensures r == Step(g, doc)
  {
    var linkToId: map<Url, nat>, idToInfo: map<nat, NodeInfo>, edges: seq<Edge>
      := g.linkToId, g.idToInfo, g.edges;
    var url := doc.url;
    var newId := |linkToId|;
    if url !in linkToId {
      linkToId := linkToId[url := newId];
      idToInfo := idToInfo[newId := NodeInfo(url, false, false)];
    }
    ghost var g1 := Intern(g, url);
    assert Graph(linkToId, idToInfo, edges) == g1;
    var fromId := linkToId[url];
    idToInfo := idToInfo[fromId := idToInfo[fromId].(processed := true)];
    ghost var g2 := SetInfo(g1, fromId, g1.idToInfo[fromId].(processed := true));
    assert Graph(linkToId, idToInfo, edges) == g2;
    if doc.links.None? || |doc.links.value| == 0 {
      r := Graph(linkToId, idToInfo, edges);
      return;
    }
    idToInfo := idToInfo[fromId := idToInfo[fromId].(hasLinks := true)];
    assert Graph(linkToId, idToInfo, edges) == Mark(g, doc);
    r := AppendLinks(Graph(linkToId, idToInfo, edges), fromId, doc.links.value);
  }

  /** The inner loop over the links of one record, whose subject has id `fromId`. */
  method AppendLinks(g: Graph, fromId: nat, links: seq<Url>) returns (r: Graph)
    requires Valid(g) && fromId < NodeCount(g)
    ensures r == AddLinks(g, fromId, links)
  {
    r := g;
    var j := 0;
    while j < |links|
      invariant j <= |links|
      invariant r == AddLinks(g, fromId, links[..j])
    {
      r := AppendLink(r, fromId, links[j]);
      AddLinksPrefixStep(g, fromId, links, j);
      j := j + 1;
    }
    assert links[..j] == links;
  }

  /** One iteration of the inner loop: number `link` if it is new, then append its edge. */
  method AppendLink(g: Graph, fromId: nat, link: Url) returns (r: Graph)
    requires Valid(g) && fromId < NodeCount(g)
    ensures r == AddLink(g, fromId, link)
  {
    var linkToId: map<Url, nat>, idToInfo: map<nat, NodeInfo>, edges: seq<Edge>
      := g.linkToId, g.idToInfo, g.edges;
    var newId := |linkToId|;
    if link !in linkToId {
      linkToId := linkToId[link := newId];
      idToInfo := idToInfo[newId := NodeInfo(link, false, false)];
    }
    assert Graph(linkToId, idToInfo, edges) == Intern(g, link);
    var toId := linkToId[link];
    edges := edges + [(fromId, toId)];
    r := Graph(linkToId, idToInfo, edges);
  }
}
