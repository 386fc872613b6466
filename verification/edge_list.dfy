/**
 * The plain-text edge list written by `save_edges_list_with_artifacts`: one line
 * `"<fromId> <toId>\n"` per edge, in edge order, and a reader that inverts it.
 */
module EdgeList {
  import opened Wrappers
  import opened Text
  import opened Decimal
  import WebGraph
  import Seqs

  type Edge = WebGraph.Edge

  /** The text of one edge without its line break: `f'{edge[0]} {edge[1]}'`. */
  function EdgeBody(e: Edge): (s: string)
    ensures '\n' !in s
  {
    var s := NatToString(e.0) + " " + NatToString(e.1);
    assert forall k :: 0 <= k < |s| ==> s[k] != '\n' by {
      assert forall k :: 0 <= k < |NatToString(e.0)| ==> IsDigit(NatToString(e.0)[k]);
      assert forall k :: 0 <= k < |NatToString(e.1)| ==> IsDigit(NatToString(e.1)[k]);
    }
    s
  }

  /** One written line: the edge's text, ended by its only line break. */
  function EdgeLine(e: Edge): (s: string)
    ensures |s| >= 1 && s[|s| - 1] == '\n' && '\n' !in s[..|s| - 1]
  {
    assert (EdgeBody(e) + "\n")[..|EdgeBody(e)|] == EdgeBody(e);
    EdgeBody(e) + "\n"
  }

  /** The whole file: the lines of the edges, written one after another. */
  function EdgeText(es: seq<Edge>): string
  {
    if |es| == 0 then "" else EdgeText(es[..|es| - 1]) + EdgeLine(es[|es| - 1])
  }

  /** The write loop: one `f.write` per edge, appending to the file text. */
  method WriteEdges(es: seq<Edge>) returns (text: string)
    ensures text == EdgeText(es)
  {
    text := "";
    var k := 0;
    while k < |es|
      invariant k <= |es|
      invariant text == EdgeText(es[..k])
    {
      text := text + EdgeLine(es[k]);
      assert es[..k + 1][..k] == es[..k];
      k := k + 1;
    }
    assert es[..k] == es;
  }

  /** The file has one line break per edge. */
  lemma {:induction false} EdgeTextLineCount(es: seq<Edge>)
    ensures Count(EdgeText(es), '\n') == |es|
  {
    if |es| > 0 {
      var e := es[|es| - 1];
      EdgeTextLineCount(es[..|es| - 1]);
      CountAppend(EdgeText(es[..|es| - 1]), EdgeLine(e), '\n');
      CountAppend(EdgeBody(e), "\n", '\n');
      CountNone(EdgeBody(e), '\n');
    }
  }

  lemma {:induction false} CountNone(s: string, c: char)
    requires c !in s
    ensures Count(s, c) == 0
  {
    if |s| > 0 {
      CountNone(s[1..], c);
    }
  }

  /** Reads one line body `"<a> <b>"` back into an edge. */
  function ParseEdgeBody(line: string): Option<Edge>
  {
    var parts := Split(line, ' ');
    if |parts| != 2 then None
    else match (ParseNat(parts[0]), ParseNat(parts[1]))
      case (Some(a), Some(b)) => Some((a, b))
      case _ => None
  }

  function ParseBodies(lines: seq<string>): Option<seq<Edge>>
  {
    if |lines| == 0 then Some([])
    else match (ParseBodies(lines[..|lines| - 1]), ParseEdgeBody(lines[|lines| - 1]))
      case (Some(es), Some(e)) => Some(es + [e])
      case _ => None
  }

  /** Reads an edge-list file: every line must end with a line break and hold one edge. */
  function ParseEdgeText(text: string): Option<seq<Edge>>
  {
    var lines := Split(text, '\n');
    if lines[|lines| - 1] != "" then None else ParseBodies(lines[..|lines| - 1])
  }

  function Bodies(es: seq<Edge>): (ls: seq<string>)
    ensures |ls| == |es|
    ensures forall k :: 0 <= k < |es| ==> ls[k] == EdgeBody(es[k])
  {
    if |es| == 0 then [] else Bodies(es[..|es| - 1]) + [EdgeBody(es[|es| - 1])]
  }

  lemma {:induction false} EdgeTextIsJoin(es: seq<Edge>)
    ensures EdgeText(es) == Join(Bodies(es) + [""], "\n")
  {
    if |es| > 0 {
      var front, e := es[..|es| - 1], es[|es| - 1];
      var bs, b := Bodies(front), EdgeBody(e);
      EdgeTextIsJoin(front);
      assert Bodies(es) == bs + [b];
      assert EdgeText(es) == EdgeText(front) + (b + "\n");
      JoinTerminated(bs, b, "\n");
    }
  }

  /** Appending a part and a separator to a separator-terminated join extends the join. */
  lemma JoinTerminated(parts: seq<string>, p: string, sep: string)
    ensures Join(parts + [""], sep) + (p + sep) == Join(parts + [p] + [""], sep)
  {
    JoinSnoc(parts + [p], "", sep);
    if |parts| > 0 {
      JoinSnoc(parts, p, sep);
      JoinSnoc(parts, "", sep);
    } else {
      assert parts + [p] == [p] && parts + [""] == [""];
    }
  }

  lemma {:induction false} EdgeBodyRoundTrip(e: Edge)
    ensures ParseEdgeBody(EdgeBody(e)) == Some(e)
  {
    var a, b := NatToString(e.0), NatToString(e.1);
    assert ' ' !in a && ' ' !in b by {
      assert forall k :: 0 <= k < |a| ==> IsDigit(a[k]);
      assert forall k :: 0 <= k < |b| ==> IsDigit(b[k]);
    }
    assert Join([a, b], " ") == EdgeBody(e);
    SplitJoin([a, b], ' ');
    ParseNatToString(e.0);
    ParseNatToString(e.1);
  }

  lemma ParseBodiesSnoc(ls: seq<string>, l: string, es: seq<Edge>, e: Edge)
    requires ParseBodies(ls) == Some(es) && ParseEdgeBody(l) == Some(e)
    ensures ParseBodies(ls + [l]) == Some(es + [e])
  {
    var ls' := ls + [l];
    assert ls'[..|ls'| - 1] == ls;
  }

  lemma {:induction false} ParseBodiesRoundTrip(es: seq<Edge>)
    ensures ParseBodies(Bodies(es)) == Some(es)
  {
    if |es| > 0 {
      var front, e := es[..|es| - 1], es[|es| - 1];
      ParseBodiesRoundTrip(front);
      EdgeBodyRoundTrip(e);
      assert Bodies(es) == Bodies(front) + [EdgeBody(e)];
      ParseBodiesSnoc(Bodies(front), EdgeBody(e), front, e);
      Seqs.FrontLast(es);
    }
  }

  /**
   * Reading the written file gives back the edge list, in order, with duplicates and
   * self-loops intact.
   */
  lemma EdgeTextRoundTrip(es: seq<Edge>)
    ensures ParseEdgeText(EdgeText(es)) == Some(es)
  {
    var lines := Bodies(es) + [""];
    EdgeTextIsJoin(es);
    SplitJoin(lines, '\n');
    assert lines[..|lines| - 1] == Bodies(es);
    ParseBodiesRoundTrip(es);
  }

  /** A line body the reader accepts is exactly the written text of the edge it reads. */
  lemma ParseEdgeBodyInverse(line: string, e: Edge)
    requires ParseEdgeBody(line) == Some(e)
    ensures EdgeBody(e) == line
  {
    var parts := Split(line, ' ');
    NatToStringParse(parts[0], e.0);
    NatToStringParse(parts[1], e.1);
    JoinSplit(line, ' ');
    assert Join(parts, " ") == parts[0] + " " + parts[1];
  }

  /** Line bodies the reader accepts are the written texts of the edges it reads, in order. */
  lemma {:induction false} ParseBodiesInverse(lines: seq<string>, es: seq<Edge>)
    requires ParseBodies(lines) == Some(es)
    ensures Bodies(es) == lines
    decreases |lines|
  {
    if |lines| > 0 {
      var front := lines[..|lines| - 1];
      var fes := ParseBodies(front).value;
      var e := ParseEdgeBody(lines[|lines| - 1]).value;
      assert es == fes + [e];
      ParseBodiesInverse(front, fes);
      ParseEdgeBodyInverse(lines[|lines| - 1], e);
      assert (fes + [e])[..|fes + [e]| - 1] == fes;
      Seqs.FrontLast(lines);
    }
  }

  /**
   * The reader accepts only what the writer produces: a file read as an edge list is
   * exactly the text written for that list.
   */
  lemma ParseEdgeTextInverse(text: string, es: seq<Edge>)
    requires ParseEdgeText(text) == Some(es)
    ensures EdgeText(es) == text
  {
    var lines := Split(text, '\n');
    ParseBodiesInverse(lines[..|lines| - 1], es);
    EdgeTextIsJoin(es);
    Seqs.FrontLast(lines);
    JoinSplit(text, '\n');
  }
}
