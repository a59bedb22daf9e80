/** Chunking shared by the pipeline and the chunker: recombining the pieces of re.split
    around an article marker into "marker + ' ' + following text" chunks, and keeping the
    long paragraphs of a text. */
module Articles {
  import opened Text
  import opened Regex

  /** The number of odd indices i with an index i + 1 among n pieces. */
  function PairCount(n: nat): nat {
    if n == 0 then 0 else (n - 1) / 2
  }

  /** The chunks made from the pieces of a split: piece i, a space, then piece i + 1, for
      every odd i that has a piece after it. */
  function Recombined(pieces: seq<string>): (r: seq<string>)
    ensures |r| == PairCount(|pieces|)
    ensures forall k :: 0 <= k < |r| ==> r[k] == pieces[2 * k + 1] + " " + pieces[2 * k + 2]
    decreases |pieces|
  {
    if |pieces| < 3 then []
    else
      var rest := Recombined(pieces[2..]);
      assert forall k :: 1 <= k < 1 + |rest| ==>
        pieces[2 * k + 1] == pieces[2..][2 * (k - 1) + 1] && pieces[2 * k + 2] == pieces[2..][2 * (k - 1) + 2];
      [pieces[1] + " " + pieces[2]] + rest
  }

  /** The recombination loop: `for i in range(1, len(chunks), 2)`, appending
      `chunks[i] + ' ' + chunks[i+1]` when there is a chunk i + 1. */
  method Recombine(chunks: seq<string>) returns (result: seq<string>)
    ensures result == Recombined(chunks)
  {
    result := [];
    var i := 1;
    while i < |chunks|
      invariant 1 <= i <= |chunks| + 1 && i % 2 == 1
      invariant |result| == (if i <= |chunks| then (i - 1) / 2 else PairCount(|chunks|))
      invariant forall k :: 0 <= k < |result| ==> 2 * k + 2 < |chunks| && result[k] == chunks[2 * k + 1] + " " + chunks[2 * k + 2]
      decreases |chunks| - i
    {
      if i + 1 < |chunks| {
        result := result + [chunks[i] + " " + chunks[i + 1]];
      }
      i := i + 2;
    }
  }

  /** Splitting around k matches and recombining gives one chunk per match: the matched
      marker, a space, and the text up to the next match (or the end). */
  lemma ArticleChunks(s: string, spans: seq<Span>)
    requires Ordered(spans, |s|, 0)
    ensures |Recombined(SplitAround(s, spans, 0))| == |spans|
    ensures forall j :: 0 <= j < |spans| ==>
      Recombined(SplitAround(s, spans, 0))[j] == s[spans[j].start..spans[j].end] + " " + Following(s, spans, j)
  {
    SplitAroundShape(s, spans);
  }

  /** [f(p) for p in pieces if len(f(p)) > 50]. */
  function LongPieces(pieces: seq<string>, f: string -> string): (r: seq<string>)
    ensures |r| <= |pieces|
    ensures forall k :: 0 <= k < |r| ==> |r[k]| > 50
    decreases |pieces|
  {
    if pieces == [] then []
    else
      var p := f(pieces[0]);
      (if |p| > 50 then [p] else []) + LongPieces(pieces[1..], f)
  }

  /** `x` is the image under `f`, longer than 50 characters, of one of the pieces. */
  predicate IsLongPieceOf(pieces: seq<string>, f: string -> string, x: string) {
    exists i :: 0 <= i < |pieces| && f(pieces[i]) == x && |x| > 50
  }

  lemma {:induction false} LongPiecesMembers(pieces: seq<string>, f: string -> string, x: string)
    ensures x in LongPieces(pieces, f) <==> IsLongPieceOf(pieces, f, x)
    decreases |pieces|
  {
    if pieces != [] {
      var p := f(pieces[0]);
      var head: seq<string> := if |p| > 50 then [p] else [];
      var tail := pieces[1..];
      assert LongPieces(pieces, f) == head + LongPieces(tail, f);
      LongPiecesMembers(tail, f, x);
      if IsLongPieceOf(pieces, f, x) {
        var i :| 0 <= i < |pieces| && f(pieces[i]) == x && |x| > 50;
        if i == 0 {
          assert x in head;
        } else {
          assert tail[i - 1] == pieces[i];
          assert IsLongPieceOf(tail, f, x);
        }
      }
      if x in head {
        assert IsLongPieceOf(pieces, f, x);
      }
      if IsLongPieceOf(tail, f, x) {
        var i :| 0 <= i < |tail| && f(tail[i]) == x && |x| > 50;
        assert tail[i] == pieces[i + 1];
        assert IsLongPieceOf(pieces, f, x);
      }
    }
  }

  /** The long pieces of a concatenation are those of each part, in order. */
  lemma {:induction false} LongPiecesAppend(a: seq<string>, b: seq<string>, f: string -> string)
    ensures LongPieces(a + b, f) == LongPieces(a, f) + LongPieces(b, f)
    decreases |a|
  {
    if a != [] {
      assert (a + b)[0] == a[0] && (a + b)[1..] == a[1..] + b;
      LongPiecesAppend(a[1..], b, f);
    } else {
      assert a + b == b;
    }
  }

  /** One piece contributes its image when that is longer than 50 characters, nothing
      otherwise. */
  lemma LongPiecesSingle(p: string, f: string -> string)
    ensures LongPieces([p], f) == (if |f(p)| > 50 then [f(p)] else [])
  {
    assert [p][1..] == [];
  }

  /** The positions below n of the pieces whose image is longer than 50 characters, in
      increasing order. */
  function LongIndices(pieces: seq<string>, f: string -> string, n: nat): (idx: seq<nat>)
    requires n <= |pieces|
    ensures forall i :: 0 <= i < |idx| ==> idx[i] < n
    ensures forall i, j :: 0 <= i < j < |idx| ==> idx[i] < idx[j]
  {
    if n == 0 then []
    else LongIndices(pieces, f, n - 1) + (if |f(pieces[n - 1])| > 50 then [n - 1] else [])
  }

  /** A position below n is listed iff the image of its piece is longer than 50 characters. */
  lemma {:induction false} LongIndicesMembers(pieces: seq<string>, f: string -> string, n: nat)
    requires n <= |pieces|
    ensures forall k :: 0 <= k < n ==> (k in LongIndices(pieces, f, n) <==> |f(pieces[k])| > 50)
  {
    if n > 0 {
      LongIndicesMembers(pieces, f, n - 1);
      var before := LongIndices(pieces, f, n - 1);
      assert n - 1 !in before;
    }
  }

  /** Result i for the first n pieces is the image of the i-th long piece among them: the
      comprehension keeps the long pieces in order, each once. */
  lemma {:induction false} LongPiecesAt(pieces: seq<string>, f: string -> string, n: nat)
    requires n <= |pieces|
    ensures |LongPieces(pieces[..n], f)| == |LongIndices(pieces, f, n)|
    ensures forall i :: 0 <= i < |LongIndices(pieces, f, n)| ==>
      LongPieces(pieces[..n], f)[i] == f(pieces[LongIndices(pieces, f, n)[i]])
  {
    if n > 0 {
      LongPiecesAt(pieces, f, n - 1);
      var prev := LongPieces(pieces[..n - 1], f);
      var before := LongIndices(pieces, f, n - 1);
      var long := |f(pieces[n - 1])| > 50;
      var r := LongPieces(pieces[..n], f);
      var idx := LongIndices(pieces, f, n);
      assert r == prev + (if long then [f(pieces[n - 1])] else []) by {
        assert pieces[..n] == pieces[..n - 1] + [pieces[n - 1]];
        LongPiecesAppend(pieces[..n - 1], [pieces[n - 1]], f);
        LongPiecesSingle(pieces[n - 1], f);
      }
      assert idx == before + (if long then [n - 1] else []);
      forall i | 0 <= i < |idx|
        ensures r[i] == f(pieces[idx[i]])
      {
        if i < |before| {
          assert r[i] == prev[i] && idx[i] == before[i];
        } else {
          assert r[i] == f(pieces[n - 1]) && idx[i] == n - 1;
        }
      }
    } else {
      assert pieces[..n] == [];
    }
  }

  /** [p.strip() for p in paragraphs if len(p.strip()) > 50]: every result is stripped and
      longer than 50 characters, a text is a result exactly when it is the stripped form,
      longer than 50 characters, of one of the paragraphs, and result i is the stripped form
      of the i-th such paragraph, so their order and repetitions are kept. */
  function LongParagraphs(paragraphs: seq<string>): (r: seq<string>)
    ensures |r| <= |paragraphs|
    ensures forall x :: x in r <==> IsLongPieceOf(paragraphs, Strip, x)
    ensures forall k :: 0 <= k < |r| ==> |r[k]| > 50 && Stripped(r[k])
    ensures var idx := LongIndices(paragraphs, Strip, |paragraphs|);
      |r| == |idx| && forall i :: 0 <= i < |idx| ==> r[i] == Strip(paragraphs[idx[i]])
  {
    var r := LongPieces(paragraphs, Strip);
    LongPiecesAt(paragraphs, Strip, |paragraphs|);
    assert paragraphs[..|paragraphs|] == paragraphs;
    forall x | x in r ensures IsLongPieceOf(paragraphs, Strip, x) && Stripped(x) {
      LongPiecesMembers(paragraphs, Strip, x);
    }
    forall x | IsLongPieceOf(paragraphs, Strip, x) ensures x in r {
      LongPiecesMembers(paragraphs, Strip, x);
    }
    r
  }

  /** An empty text has no long paragraph. */
  lemma EmptyTextNoParagraphs()
    ensures LongParagraphs(SplitOn("", "\n\n")) == []
  {
    assert SplitOn("", "\n\n") == [""];
    assert Strip("") == [];
  }
}
