/** Cutting a string at a separator, as `strtok` does: runs of separators count as one, and no
    piece is empty.
 */
module Tokens {
  import opened Wrappers

  /** How far `s` goes without a separator. */
  function Span(s: string, sep: char): (n: nat)
    ensures n <= |s| && sep !in s[..n] && (n < |s| ==> s[n] == sep)
  {
    if s == "" || s[0] == sep then 0 else 1 + Span(s[1..], sep)
  }

  function Pieces(s: string, sep: char): seq<string>
    decreases |s|
  {
    if s == "" then []
    else if s[0] == sep then Pieces(s[1..], sep)
    else [s[..Span(s, sep)]] + Pieces(s[Span(s, sep)..], sep)
  }

  function Join(pieces: seq<string>, sep: char): string {
    if pieces == [] then "" else if |pieces| == 1 then pieces[0] else pieces[0] + [sep] + Join(pieces[1..], sep)
  }

  lemma {:induction false} SpanOf(piece: string, rest: string, sep: char)
    requires sep !in piece && (rest == "" || rest[0] == sep)
    ensures Span(piece + rest, sep) == |piece|
  {
    if piece != "" {
      assert (piece + rest)[1..] == piece[1..] + rest;
      SpanOf(piece[1..], rest, sep);
    } else {
      assert piece + rest == rest;
    }
  }

  lemma PiecesOfCons(piece: string, rest: string, sep: char)
    requires piece != "" && sep !in piece && (rest == "" || rest[0] == sep)
    ensures Pieces(piece + rest, sep) == [piece] + Pieces(if rest == "" then "" else rest[1..], sep)
  {
    hide Span;
    var s := piece + rest;
    SpanOf(piece, rest, sep);
    assert s[..|piece|] == piece && s[|piece|..] == rest;
    assert s[0] == piece[0] && piece[0] in piece;
  }

  lemma {:induction false} JoinOfConcat(a: seq<string>, b: seq<string>, sep: char)
    requires a != [] && b != []
    ensures Join(a + b, sep) == Join(a, sep) + [sep] + Join(b, sep)
  {
    assert (a + b)[1..] == a[1..] + b;
    if |a| > 1 {
      JoinOfConcat(a[1..], b, sep);
      var rest := Join(a[1..], sep);
      assert a[0] + [sep] + (rest + [sep] + Join(b, sep)) == a[0] + [sep] + rest + [sep] + Join(b, sep);
    }
  }

  /** Cutting undoes joining. */
  lemma {:induction false} PiecesOfJoin(pieces: seq<string>, sep: char)
    requires forall p | p in pieces :: p != "" && sep !in p
    ensures Pieces(Join(pieces, sep), sep) == pieces
  {
    if pieces != [] {
      var rest := if |pieces| == 1 then "" else [sep] + Join(pieces[1..], sep);
      var p := pieces[0];
      assert p in pieces && Join(pieces, sep) == p + rest by {
        assert |pieces| == 1 ==> p + "" == p;
      }
      PiecesOfCons(p, rest, sep);
      assert forall q | q in pieces[1..] :: q in pieces;
      PiecesOfJoin(pieces[1..], sep);
      assert (if rest == "" then "" else rest[1..]) == Join(pieces[1..], sep);
    }
  }

  lemma CutAfterPiece(piece: string, rest: string, b: string, sep: char)
    requires piece != "" && sep !in piece && (rest == "" || rest[0] == sep)
    ensures Pieces(piece + rest + [sep] + b, sep) == [piece] + Pieces(if rest == "" then b else rest[1..] + [sep] + b, sep)
    ensures Pieces(piece + rest, sep) == [piece] + Pieces(if rest == "" then "" else rest[1..], sep)
  {
    hide Pieces;
    var more := rest + [sep] + b;
    assert piece + rest + [sep] + b == piece + more;
    assert more[1..] == if rest == "" then b else rest[1..] + [sep] + b;
    PiecesOfCons(piece, more, sep);
    PiecesOfCons(piece, rest, sep);
  }

  lemma PiecesStart(s: string, sep: char)
    ensures s == "" ==> Pieces(s, sep) == []
    ensures s != "" && s[0] == sep ==> Pieces(s, sep) == Pieces(s[1..], sep)
  {
  }

  /** A separator cuts wherever it is. With `PieceIsItself` this says what all the pieces are. */
  lemma {:induction false} PiecesOfCut(a: string, b: string, sep: char)
    ensures Pieces(a + [sep] + b, sep) == Pieces(a, sep) + Pieces(b, sep)
    decreases |a|
  {
    hide Span, Pieces;
    var s := a + [sep] + b;
    PiecesStart(s, sep);
    PiecesStart(a, sep);
    if a == "" {
      assert s[1..] == b;
    } else if a[0] == sep {
      assert s[1..] == a[1..] + [sep] + b;
      PiecesOfCut(a[1..], b, sep);
    } else {
      FirstPiece(a, sep);
      var piece, rest := a[..Span(a, sep)], a[Span(a, sep)..];
      assert a == piece + rest;
      CutAfterPiece(piece, rest, b, sep);
      if rest != "" {
        PiecesOfCut(rest[1..], b, sep);
        var first, more := [piece] + Pieces(rest[1..], sep), Pieces(b, sep);
        assert [piece] + (Pieces(rest[1..], sep) + more) == first + more;
      } else {
        PiecesStart("", sep);
      }
    }
  }

  lemma FirstPiece(s: string, sep: char)
    requires s != "" && s[0] != sep
    ensures Span(s, sep) > 0 && sep !in s[..Span(s, sep)]
    ensures s[Span(s, sep)..] == "" || s[Span(s, sep)..][0] == sep
  {
  }

  /** No piece is empty or holds a separator. */
  lemma {:induction false} PiecesAreProper(s: string, sep: char)
    ensures forall p | p in Pieces(s, sep) :: p != "" && sep !in p
    decreases |s|
  {
    if s != "" {
      PiecesAreProper(if s[0] == sep then s[1..] else s[Span(s, sep)..], sep);
    }
  }

  lemma PieceIsItself(s: string, sep: char)
    requires s != "" && sep !in s
    ensures Pieces(s, sep) == [s]
  {
    PiecesOfJoin([s], sep);
  }

  lemma SpanSteps(s: string, i: nat, sep: char)
    requires i < |s|
    ensures s[i] == sep ==> Pieces(s[i..], sep) == Pieces(s[i + 1..], sep)
    ensures s[i] != sep ==> Span(s[i..], sep) == 1 + Span(s[i + 1..], sep)
  {
    assert s[i..][1..] == s[i + 1..];
  }

  lemma SpanEnds(s: string, start: nat, end: nat, sep: char)
    requires start < end <= |s| && s[start] != sep && Span(s[start..], sep) == end - start
    ensures Pieces(s[start..], sep) == [s[start..end]] + Pieces(s[end..], sep)
  {
    assert s[start..][..end - start] == s[start..end] && s[start..][end - start..] == s[end..];
  }

  method Strtok(s: string, sep: char) returns (pieces: seq<string>)
    ensures pieces == Pieces(s, sep)
  {
    hide Pieces, Span;
    pieces := [];
    var i := 0;
    assert s[0..] == s;
    while i < |s|
      invariant i <= |s| && pieces + Pieces(s[i..], sep) == Pieces(s, sep)
    {
      SpanSteps(s, i, sep);
      if s[i] == sep {
        i := i + 1;
      } else {
        var start := i;
        while i < |s| && s[i] != sep
          invariant start <= i <= |s| && Span(s[start..], sep) == i - start + Span(s[i..], sep)
        {
          SpanSteps(s, i, sep);
          i := i + 1;
        }
        SpanStops(s, i, sep);
        SpanEnds(s, start, i, sep);
        pieces := pieces + [s[start..i]];
      }
    }
    NoPieces(s, sep);
  }

  lemma SpanStops(s: string, i: nat, sep: char)
    requires i <= |s| && (i < |s| ==> s[i] == sep)
    ensures Span(s[i..], sep) == 0
  {
  }

  lemma NoPieces(s: string, sep: char)
    ensures Pieces(s[|s|..], sep) == []
  {
  }

  /** Exactly one separator between two values, none around. */
  predicate WellSeparated(s: string, sep: char) {
    s != "" && s[0] != sep && forall i | 0 <= i < |s| && s[i] == sep :: i + 1 < |s| && s[i + 1] != sep
  }

  /** The pieces that start after the one that reaches position `i`, if any does. */
  function Later(s: string, i: nat, sep: char): nat
    requires i <= |s|
  {
    |Pieces(s[i + Span(s[i..], sep)..], sep)|
  }

  lemma LaterSteps(s: string, i: nat, sep: char)
    requires i < |s|
    ensures s[i] != sep ==> Later(s, i, sep) == Later(s, i + 1, sep)
    ensures s[i] == sep && i + 1 < |s| && s[i + 1] != sep ==> Later(s, i, sep) == 1 + Later(s, i + 1, sep)
  {
    var rest := s[i + 1..];
    assert s[i..][1..] == rest;
    assert rest[Span(rest, sep)..] == s[i + 1 + Span(rest, sep)..];
    if s[i] == sep && i + 1 < |s| && s[i + 1] != sep {
      assert s[i + 0..] == s[i..];
      assert Pieces(s[i..], sep) == Pieces(rest, sep);
      assert |Pieces(rest, sep)| == 1 + |Pieces(rest[Span(rest, sep)..], sep)|;
    }
  }

  lemma LaterAtStart(s: string, sep: char)
    requires s != "" && s[0] != sep
    ensures |Pieces(s, sep)| == 1 + Later(s, 1, sep)
  {
    assert s[1 + Span(s[1..], sep)..] == s[Span(s, sep)..];
  }

  /** Fails unless the values are well separated; otherwise their number is that of the pieces. */
  method CountValues(s: string, sep: char) returns (count: Option<nat>)
    ensures count.Some? <==> WellSeparated(s, sep)
    ensures count.Some? ==> count.value == |Pieces(s, sep)|
  {
    hide Later;
    if s == "" || s[0] == sep {
      return None;
    }
    var n := 1;
    var i := 1;
    LaterAtStart(s, sep);
    while i < |s|
      invariant 1 <= i <= |s|
      invariant forall j | 0 <= j < i && s[j] == sep :: j + 1 < |s| && s[j + 1] != sep
      invariant |Pieces(s, sep)| == n + Later(s, i, sep)
    {
      LaterSteps(s, i, sep);
      if s[i] == sep {
        if i + 1 == |s| || s[i + 1] == sep {
          return None;
        }
        n := n + 1;
      }
      i := i + 1;
    }
    LaterAtEnd(s, sep);
    return Some(n);
  }

  lemma LaterAtEnd(s: string, sep: char)
    ensures Later(s, |s|, sep) == 0
  {
  }
}
