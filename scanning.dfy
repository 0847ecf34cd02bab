/**
 * How `re.findall` walks a text made of pieces, each piece contributing one
 * group: the facts the round-trip lemmas of the parsers are built from.
 */
module Scanning {
  import opened Text
  import opened Records
  import opened Patterns

  /** The pieces one after the other. */
  function Concat(pieces: seq<string>): (s: string)
    ensures pieces == [] ==> s == []
  {
    if pieces == [] then [] else pieces[0] + Concat(pieces[1..])
  }

  /**
   * `findall` over `piece` followed by anything gives `cap` and then carries
   * on with what follows, untouched.
   */
  ghost predicate Yields(m: Matcher, piece: string, cap: string)
    requires Progressing(m)
  {
    forall r :: FindAll(m, piece + r) == [cap] + FindAll(m, r)
  }

  /**
   * A text made of pieces each yielding one group gives those groups, in
   * order, and then whatever follows it gives.
   */
  lemma {:induction false} ScanPiecesThen(m: Matcher, pieces: seq<string>, caps: seq<string>, r: string)
    requires Progressing(m)
    requires |caps| == |pieces|
    requires forall k :: 0 <= k < |pieces| ==> Yields(m, pieces[k], caps[k])
    ensures FindAll(m, Concat(pieces) + r) == caps + FindAll(m, r)
  {
    if pieces == [] {
      assert Concat(pieces) + r == r;
    } else {
      var rest := Concat(pieces[1..]) + r;
      YieldsRest(m, pieces, caps);
      ScanPiecesThen(m, pieces[1..], caps[1..], r);
      FirstPiece(m, pieces, caps, rest);
      ScanStep(m, pieces, caps, r, rest);
    }
  }

  /** The groups of the first piece, then those of the rest. */
  lemma ScanStep(m: Matcher, pieces: seq<string>, caps: seq<string>, r: string, rest: string)
    requires Progressing(m)
    requires |caps| == |pieces| > 0
    requires rest == Concat(pieces[1..]) + r
    requires FindAll(m, rest) == caps[1..] + FindAll(m, r)
    requires FindAll(m, pieces[0] + rest) == [caps[0]] + FindAll(m, rest)
    ensures FindAll(m, Concat(pieces) + r) == caps + FindAll(m, r)
  {
    assert Concat(pieces) == pieces[0] + Concat(pieces[1..]);
    Regroup(pieces[0], Concat(pieces[1..]), r);
    HeadThenRest(caps, FindAll(m, r));
  }

  /** A non-empty list is its first element followed by the rest. */
  lemma HeadThenRest<T>(xs: seq<T>, ys: seq<T>)
    requires xs != []
    ensures [xs[0]] + (xs[1..] + ys) == xs + ys
  {
    assert [xs[0]] + xs[1..] == xs;
  }

  /** The pieces after the first still yield the groups after the first. */
  lemma YieldsRest(m: Matcher, pieces: seq<string>, caps: seq<string>)
    requires Progressing(m)
    requires |caps| == |pieces| > 0
    requires forall k :: 0 <= k < |pieces| ==> Yields(m, pieces[k], caps[k])
    ensures forall k :: 0 <= k < |pieces| - 1 ==> Yields(m, pieces[1..][k], caps[1..][k])
  {
    forall k | 0 <= k < |pieces| - 1
      ensures Yields(m, pieces[1..][k], caps[1..][k])
    {
      assert pieces[1..][k] == pieces[k + 1];
    }
  }

  /** The first piece gives its group, then the scan goes on over the rest. */
  lemma FirstPiece(m: Matcher, pieces: seq<string>, caps: seq<string>, rest: string)
    requires Progressing(m)
    requires |caps| == |pieces| > 0
    requires Yields(m, pieces[0], caps[0])
    ensures FindAll(m, pieces[0] + rest) == [caps[0]] + FindAll(m, rest)
  {
  }

  /** A text made of pieces each yielding one group gives those groups, in order. */
  lemma ScanPieces(m: Matcher, pieces: seq<string>, caps: seq<string>)
    requires Progressing(m)
    requires |caps| == |pieces|
    requires forall k :: 0 <= k < |pieces| ==> Yields(m, pieces[k], caps[k])
    ensures FindAll(m, Concat(pieces)) == caps
  {
    ScanPiecesThen(m, pieces, caps, []);
    assert Concat(pieces) + [] == Concat(pieces);
    assert FindAll(m, []) == [] by { FindAllStartsWithSearch(m, []); }
  }

  /** A text none of whose characters can start a match gives no groups. */
  lemma FindAllNone(m: Matcher, a: string, c: char)
    requires Progressing(m)
    requires c !in a
    requires forall t :: t != [] && t[0] != c ==> m(t).None?
    ensures FindAll(m, a) == []
  {
    SkipLeading(m, a, [], c);
    assert a + [] == a;
    assert FindAll(m, []) == [] by { FindAllStartsWithSearch(m, []); }
  }

  /** Every position of `a` starts with a character that the pattern's text cannot start with. */
  lemma SkipLeading(m: Matcher, a: string, b: string, c: char)
    requires Progressing(m)
    requires c !in a
    requires forall t :: t != [] && t[0] != c ==> m(t).None?
    ensures FindAll(m, a + b) == FindAll(m, b)
  {
    forall i | 0 <= i < |a|
      ensures m((a + b)[i..]).None?
    {
      assert (a + b)[i..][0] == a[i];
    }
    FindAllSkip(m, a, b);
  }

  /**
   * Pieces yielding one group each, between a head and a tail where the
   * pattern cannot start, give exactly those groups.
   */
  lemma ScanFramed(m: Matcher, c: char, head: string, pieces: seq<string>, caps: seq<string>, tail: string)
    requires Progressing(m)
    requires forall t :: t != [] && t[0] != c ==> m(t).None?
    requires c !in head && c !in tail
    requires |caps| == |pieces|
    requires forall k :: 0 <= k < |pieces| ==> Yields(m, pieces[k], caps[k])
    ensures FindAll(m, head + (Concat(pieces) + tail)) == caps
  {
    SkipLeading(m, head, Concat(pieces) + tail, c);
    ScanPiecesThen(m, pieces, caps, tail);
    FindAllNone(m, tail, c);
    assert caps + [] == caps;
  }

  /**
   * A piece `lead + hit + gap` where the pattern finds nothing in `lead` or
   * `gap` and finds `cap` spanning exactly `hit` yields `cap`.
   */
  lemma PieceYields(m: Matcher, c: char, lead: string, hit: string, cap: string, gap: string)
    requires Progressing(m)
    requires forall t :: t != [] && t[0] != c ==> m(t).None?
    requires c !in lead && c !in gap
    requires forall r :: m(hit + (gap + r)) == Some(Match(cap, |hit|))
    ensures Yields(m, lead + hit + gap, cap)
  {
    forall r
      ensures FindAll(m, lead + hit + gap + r) == [cap] + FindAll(m, r)
    {
      var after := gap + r;
      assert lead + hit + gap + r == lead + (hit + after);
      assert FindAll(m, lead + (hit + after)) == FindAll(m, hit + after) by {
        SkipLeading(m, lead, hit + after, c);
      }
      assert FindAll(m, hit + after) == [cap] + FindAll(m, after) by {
        FindAllTake(m, hit, after, cap);
      }
      assert FindAll(m, after) == FindAll(m, r) by {
        SkipLeading(m, gap, r, c);
      }
    }
  }

  /** Lines written one after the other, each with its newline, as pieces. */
  lemma {:induction false} UnlinesPieces(lines: seq<string>)
    ensures Unlines(lines) == Concat(seq(|lines|, k requires 0 <= k < |lines| => lines[k] + "\n"))
  {
    var pieces := seq(|lines|, k requires 0 <= k < |lines| => lines[k] + "\n");
    if lines != [] {
      assert pieces[1..] == seq(|lines| - 1, k requires 0 <= k < |lines| - 1 => lines[1..][k] + "\n");
      UnlinesPieces(lines[1..]);
    }
  }
}
