/**
 * `HtmlDocumentParser.get_cleared_text` on text already extracted from an element: split
 * on `\n`, strip each piece, drop the empty ones and join the rest with `". "`.
 */
module ClearedText {
  import opened Text

  /** The stripped, non-empty pieces, in order. */
  function Segments(pieces: seq<string>): (segs: seq<string>)
    ensures forall k :: 0 <= k < |segs| ==> segs[k] != ""
  {
    if |pieces| == 0 then []
    else
      var x := Strip(pieces[0]);
      if x == "" then Segments(pieces[1..]) else [x] + Segments(pieces[1..])
  }

  /**
   * `get_cleared_text`: the stripped, non-empty lines of `t`, joined with `". "`. The
   * result holds no `\n`, neither starts nor ends with whitespace, and is empty exactly
   * when `t` is all whitespace.
   */
  function ClearText(t: string): (r: string)
    ensures '\n' !in r
    ensures r == "" <==> AllSpace(t)
    ensures r == "" || (!IsSpace(r[0]) && !IsSpace(r[|r| - 1]))
  {
    var pieces := Split(t, '\n');
    var segs := Segments(pieces);
    SegmentsNoBreak(pieces);
    JoinSegmentsNoBreak(segs);
    SegmentsEmpty(pieces);
    AllSpacePieces(t);
    SegmentsTrimmed(pieces);
    JoinEnds(segs);
    Join(segs, ". ")
  }

  /** A join of kept segments is empty only when there are none, and keeps their outer ends. */
  lemma JoinEnds(segs: seq<string>)
    requires forall k :: 0 <= k < |segs| ==> segs[k] != ""
    requires forall k :: 0 <= k < |segs| ==> !IsSpace(segs[k][0]) && !IsSpace(segs[k][|segs[k]| - 1])
    ensures var r := Join(segs, ". "); (r == "" <==> segs == []) && (r == "" || (!IsSpace(r[0]) && !IsSpace(r[|r| - 1])))
  {
    if |segs| > 0 {
      var first, last := segs[0], segs[|segs| - 1];
      var r := Join(segs, ". ");
      JoinNonEmpty(segs, ". ");
      JoinLast(segs, ". ");
      assert r[0] == first[0] && !IsSpace(first[0]);
      assert r[|r| - 1] == last[|last| - 1] && !IsSpace(last[|last| - 1]);
    }
  }

  /** A kept segment is a stripped piece of one line of `t`, so it holds no `\n`. */
  lemma {:induction false} SegmentsNoBreak(pieces: seq<string>)
    requires forall k :: 0 <= k < |pieces| ==> '\n' !in pieces[k]
    ensures forall k :: 0 <= k < |Segments(pieces)| ==> '\n' !in Segments(pieces)[k]
  {
    if |pieces| > 0 {
      SegmentsNoBreak(pieces[1..]);
      StripChars(pieces[0], '\n');
    }
  }

  /** A kept segment neither starts nor ends with whitespace. */
  lemma {:induction false} SegmentsTrimmed(pieces: seq<string>)
    ensures forall k :: 0 <= k < |Segments(pieces)| ==>
              !IsSpace(Segments(pieces)[k][0]) && !IsSpace(Segments(pieces)[k][|Segments(pieces)[k]| - 1])
  {
    if |pieces| > 0 {
      SegmentsTrimmed(pieces[1..]);
    }
  }

  lemma {:induction false} SegmentsEmpty(pieces: seq<string>)
    ensures Segments(pieces) == [] <==> EveryAllSpace(pieces)
  {
    if |pieces| > 0 {
      SegmentsEmpty(pieces[1..]);
      StripEmptyIff(pieces[0]);
      EveryCons(pieces[0], pieces[1..]);
      assert [pieces[0]] + pieces[1..] == pieces;
    }
  }

  /** Every piece of `ps` is all whitespace. */
  predicate EveryAllSpace(ps: seq<string>)
  {
    forall k :: 0 <= k < |ps| ==> AllSpace(ps[k])
  }

  lemma AllSpaceCons(c: char, s: string)
    ensures AllSpace([c] + s) <==> IsSpace(c) && AllSpace(s)
  {
    var cs := [c] + s;
    assert cs[0] == c;
    assert forall k :: 0 <= k < |s| ==> cs[k + 1] == s[k];
    if IsSpace(c) && AllSpace(s) {
      forall k | 0 <= k < |cs| ensures IsSpace(cs[k]) {
        if k > 0 { assert cs[k] == s[k - 1]; }
      }
    }
  }

  lemma EveryCons(p: string, ps: seq<string>)
    ensures EveryAllSpace([p] + ps) <==> AllSpace(p) && EveryAllSpace(ps)
  {
    var all := [p] + ps;
    assert all[0] == p;
    assert forall k :: 0 <= k < |ps| ==> all[k + 1] == ps[k];
    if AllSpace(p) && EveryAllSpace(ps) {
      forall k | 0 <= k < |all| ensures AllSpace(all[k]) {
        if k > 0 { assert all[k] == ps[k - 1]; }
      }
    }
  }

  /** A string is all whitespace exactly when every piece between `\n`s is. */
  lemma {:induction false} AllSpacePieces(s: string)
    ensures AllSpace(s) <==> EveryAllSpace(Split(s, '\n'))
  {
    if |s| > 0 {
      AllSpacePieces(s[1..]);
      var rest := Split(s[1..], '\n');
      AllSpaceCons(s[0], s[1..]);
      assert [s[0]] + s[1..] == s;
      if s[0] != '\n' {
        AllSpaceCons(s[0], rest[0]);
        EveryCons(rest[0], rest[1..]);
        assert [rest[0]] + rest[1..] == rest;
        EveryCons([s[0]] + rest[0], rest[1..]);
      } else {
        EveryCons("", rest);
      }
    }
  }

  lemma {:induction false} JoinNonEmpty(parts: seq<string>, sep: string)
    requires |parts| > 0 && parts[0] != ""
    ensures Join(parts, sep) != ""
    ensures Join(parts, sep)[0] == parts[0][0]
  {
  }

  lemma {:induction false} JoinLast(parts: seq<string>, sep: string)
    requires |parts| > 0 && parts[|parts| - 1] != ""
    ensures Join(parts, sep) != ""
    ensures var j := Join(parts, sep); j[|j| - 1] == parts[|parts| - 1][|parts[|parts| - 1]| - 1]
  {
    if |parts| > 1 {
      JoinLast(parts[1..], sep);
    }
  }

  lemma JoinSegmentsNoBreak(segs: seq<string>)
    requires forall k :: 0 <= k < |segs| ==> '\n' !in segs[k]
    ensures '\n' !in Join(segs, ". ")
  {
    JoinChars(segs, ". ", '\n');
  }

  /** Cleaning already-cleaned text changes nothing. */
  lemma ClearTextIdempotent(t: string)
    ensures ClearText(ClearText(t)) == ClearText(t)
  {
    var r := ClearText(t);
    SplitNoSep(r, '\n');
    StripStripped(r);
    assert Segments([r]) == (if r == "" then [] else [r]) by {
      assert [r][1..] == [];
    }
  }
}
