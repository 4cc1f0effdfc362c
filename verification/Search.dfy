/** Tool search: identifier-aware tokens and a BM25 ranking of the tools a caller may see, with
    scores as reals. */
module Search {
  import opened Options

  datatype Tool = Tool(name: string, description: string)

  // ---------- tokens ----------

  /** What counts as a letter or digit in any script (the underscore does not), and lower case. */
  datatype Alphabet = Alphabet(isWord: char -> bool, lower: string -> string)

  predicate IsUpper(c: char) { 'A' <= c <= 'Z' }
  predicate IsLower(c: char) { 'a' <= c <= 'z' }
  predicate IsDigit(c: char) { '0' <= c <= '9' }

  /** readNote -> read Note, HTTPServer -> HTTP Server. */
  predicate Boundary(s: string, i: int) {
    0 < i < |s| && IsUpper(s[i]) &&
    (IsLower(s[i - 1]) || IsDigit(s[i - 1]) || (IsUpper(s[i - 1]) && i + 1 < |s| && IsLower(s[i + 1])))
  }

  /** Where a name breaks: at a capital after a small letter or a digit, and at the last of several
      capitals that a small letter follows. */
  lemma KnownBoundaries(i: int)
    ensures Boundary("readNote", i) <==> i == 4
    ensures Boundary("HTTPServer", i) <==> i == 4
    ensures Boundary("v2Api", i) <==> i == 2
    ensures !Boundary("HTTP", i) && !Boundary("Notes2", i)
  {
  }

  predicate AllWord(isWord: char -> bool, s: string) {
    forall i | 0 <= i < |s| :: isWord(s[i])
  }

  /** How far a run of word characters goes. */
  function Run(isWord: char -> bool, s: string): (n: nat)
    ensures n <= |s| && AllWord(isWord, s[..n]) && (n < |s| ==> !isWord(s[n]))
  {
    if |s| == 0 || !isWord(s[0]) then 0 else 1 + Run(isWord, s[1..])
  }

  /** What splitting on runs of other characters leaves, without the empty strings. */
  function Chunks(isWord: char -> bool, s: string): seq<string>
    decreases |s|
  {
    if |s| == 0 then []
    else if !isWord(s[0]) then Chunks(isWord, s[1..])
    else [s[..Run(isWord, s)]] + Chunks(isWord, s[Run(isWord, s)..])
  }

  /** Where the first piece ends: at the first boundary, or at the end. */
  function FirstCut(s: string, from: nat): (n: nat)
    requires 1 <= from <= |s|
    ensures from <= n <= |s| && (n < |s| ==> Boundary(s, n)) && forall i | from <= i < n :: !Boundary(s, i)
    decreases |s| - from
  {
    if from == |s| || Boundary(s, from) then from else FirstCut(s, from + 1)
  }

  function CamelPieces(s: string): seq<string>
    decreases |s|
  {
    if |s| == 0 then [] else [s[..FirstCut(s, 1)]] + CamelPieces(s[FirstCut(s, 1)..])
  }

  function PiecesOf(chunks: seq<string>): seq<string> {
    if |chunks| == 0 then [] else CamelPieces(chunks[0]) + PiecesOf(chunks[1..])
  }

  function Pieces(isWord: char -> bool, s: string): seq<string> {
    PiecesOf(Chunks(isWord, s))
  }

  function Lowered(lower: string -> string, pieces: seq<string>): seq<string> {
    if |pieces| == 0 then [] else [lower(pieces[0])] + Lowered(lower, pieces[1..])
  }

  function Tokens(A: Alphabet, s: string): seq<string> {
    Lowered(A.lower, Pieces(A.isWord, s))
  }

  lemma {:induction false} LoweredConcat(lower: string -> string, a: seq<string>, b: seq<string>)
    ensures Lowered(lower, a + b) == Lowered(lower, a) + Lowered(lower, b)
  {
    if |a| == 0 {
      assert a + b == b;
    } else {
      assert (a + b)[1..] == a[1..] + b;
      LoweredConcat(lower, a[1..], b);
    }
  }

  lemma {:induction false} PiecesOfConcat(a: seq<string>, b: seq<string>)
    ensures PiecesOf(a + b) == PiecesOf(a) + PiecesOf(b)
  {
    if |a| == 0 {
      assert a + b == b;
    } else {
      assert (a + b)[1..] == a[1..] + b;
      PiecesOfConcat(a[1..], b);
    }
  }

  lemma AppendLowered(lower: string -> string, tokens: seq<string>, a: seq<string>, b: seq<string>)
    ensures tokens + Lowered(lower, a + b) == tokens + Lowered(lower, a) + Lowered(lower, b)
  {
    LoweredConcat(lower, a, b);
  }

  /** The inner loop, over the pieces of a chunk. */
  method AddPieces(lower: string -> string, before: seq<string>, pieces: seq<string>) returns (tokens: seq<string>)
    ensures tokens == before + Lowered(lower, pieces)
  {
    tokens := before;
    for j := 0 to |pieces|
      invariant tokens + Lowered(lower, pieces[j..]) == before + Lowered(lower, pieces)
    {
      assert pieces[j..][1..] == pieces[j + 1..];
      tokens := tokens + [lower(pieces[j])];
    }
  }

  method Tokenize(A: Alphabet, text: string) returns (tokens: seq<string>)
    ensures tokens == Tokens(A, text)
  {
    tokens := [];
    var chunks := Chunks(A.isWord, text);
    for i := 0 to |chunks|
      invariant tokens + Lowered(A.lower, PiecesOf(chunks[i..])) == Tokens(A, text)
    {
      assert chunks[i..][1..] == chunks[i + 1..];
      AppendLowered(A.lower, tokens, CamelPieces(chunks[i]), PiecesOf(chunks[i + 1..]));
      tokens := AddPieces(A.lower, tokens, CamelPieces(chunks[i]));
    }
  }

  // ---------- what tokens keep ----------

  function Join(parts: seq<string>): string {
    if |parts| == 0 then "" else parts[0] + Join(parts[1..])
  }

  function WordChars(isWord: char -> bool, s: string): string {
    if |s| == 0 then "" else (if isWord(s[0]) then [s[0]] else []) + WordChars(isWord, s[1..])
  }

  lemma {:induction false} JoinConcat(a: seq<string>, b: seq<string>)
    ensures Join(a + b) == Join(a) + Join(b)
  {
    if |a| == 0 {
      assert a + b == b;
    } else {
      assert (a + b)[1..] == a[1..] + b;
      JoinConcat(a[1..], b);
    }
  }

  lemma {:induction false} CamelKeepsAll(s: string)
    ensures Join(CamelPieces(s)) == s
    decreases |s|
  {
    if |s| > 0 { CamelKeepsAll(s[FirstCut(s, 1)..]); }
  }

  lemma {:induction false} RunIsKept(isWord: char -> bool, s: string, n: nat)
    requires n <= |s| && AllWord(isWord, s[..n])
    ensures WordChars(isWord, s) == s[..n] + WordChars(isWord, s[n..])
  {
    if n > 0 {
      assert isWord(s[..n][0]);
      assert s[1..][..n - 1] == s[..n][1..];
      RunIsKept(isWord, s[1..], n - 1);
    }
  }

  /** No letter or digit is lost, added or moved. */
  lemma {:induction false} PiecesKeepEveryLetter(isWord: char -> bool, s: string)
    ensures Join(Pieces(isWord, s)) == WordChars(isWord, s)
    decreases |s|
  {
    if |s| > 0 {
      if !isWord(s[0]) {
        PiecesKeepEveryLetter(isWord, s[1..]);
      } else {
        var n := Run(isWord, s);
        PiecesKeepEveryLetter(isWord, s[n..]);
        RunIsKept(isWord, s, n);
        CamelKeepsAll(s[..n]);
        assert Chunks(isWord, s)[1..] == Chunks(isWord, s[n..]);
        JoinConcat(CamelPieces(s[..n]), PiecesOf(Chunks(isWord, s[n..])));
      }
    }
  }

  /** A piece is a word without a boundary inside. */
  predicate IsPiece(isWord: char -> bool, piece: string) {
    |piece| > 0 && AllWord(isWord, piece) && forall i | 0 < i < |piece| :: !Boundary(piece, i)
  }

  lemma {:induction false} CamelPiecesAreWhole(isWord: char -> bool, s: string)
    requires AllWord(isWord, s)
    ensures forall piece | piece in CamelPieces(s) :: IsPiece(isWord, piece)
    decreases |s|
  {
    if |s| > 0 {
      var n := FirstCut(s, 1);
      assert forall i | 0 < i < n :: Boundary(s[..n], i) ==> Boundary(s, i);
      CamelPiecesAreWhole(isWord, s[n..]);
    }
  }

  lemma {:induction false} ChunksAreWords(isWord: char -> bool, s: string)
    ensures forall chunk | chunk in Chunks(isWord, s) :: AllWord(isWord, chunk)
    decreases |s|
  {
    if |s| > 0 { ChunksAreWords(isWord, if isWord(s[0]) then s[Run(isWord, s)..] else s[1..]); }
  }

  lemma {:induction false} PiecesAreWhole(isWord: char -> bool, chunks: seq<string>)
    requires forall chunk | chunk in chunks :: AllWord(isWord, chunk)
    ensures forall piece | piece in PiecesOf(chunks) :: IsPiece(isWord, piece)
  {
    if |chunks| > 0 {
      CamelPiecesAreWhole(isWord, chunks[0]);
      PiecesAreWhole(isWord, chunks[1..]);
    }
  }

  lemma TokensAreWhole(isWord: char -> bool, s: string)
    ensures forall piece | piece in Pieces(isWord, s) :: IsPiece(isWord, piece)
  {
    ChunksAreWords(isWord, s);
    PiecesAreWhole(isWord, Chunks(isWord, s));
  }

  lemma {:induction false} RunStopsAt(isWord: char -> bool, a: string, c: char, b: string)
    requires !isWord(c)
    ensures Run(isWord, a + [c] + b) == Run(isWord, a)
  {
    if |a| > 0 {
      assert (a + [c] + b)[1..] == a[1..] + [c] + b;
      RunStopsAt(isWord, a[1..], c, b);
    }
  }

  lemma {:induction false} ChunksSplit(isWord: char -> bool, a: string, c: char, b: string)
    requires !isWord(c)
    ensures Chunks(isWord, a + [c] + b) == Chunks(isWord, a) + Chunks(isWord, b)
    decreases |a|
  {
    var s := a + [c] + b;
    if |a| == 0 {
      assert s[1..] == b;
    } else if !isWord(a[0]) {
      assert s[1..] == a[1..] + [c] + b;
      ChunksSplit(isWord, a[1..], c, b);
    } else {
      var n := Run(isWord, a);
      RunStopsAt(isWord, a, c, b);
      assert s[0] == a[0] && n > 0;
      assert s[..n] == a[..n] && s[n..] == a[n..] + [c] + b;
      ChunksSplit(isWord, a[n..], c, b);
      assert Chunks(isWord, s) == [a[..n]] + Chunks(isWord, a[n..] + [c] + b);
    }
  }

  /** Any other character separates: a document's tokens are its name's and its description's. */
  lemma SeparatorSplits(A: Alphabet, a: string, c: char, b: string)
    requires !A.isWord(c)
    ensures Tokens(A, a + [c] + b) == Tokens(A, a) + Tokens(A, b)
  {
    ChunksSplit(A.isWord, a, c, b);
    PiecesOfConcat(Chunks(A.isWord, a), Chunks(A.isWord, b));
    LoweredConcat(A.lower, Pieces(A.isWord, a), Pieces(A.isWord, b));
  }

  lemma {:induction false} CutsAgree(a: string, b: string, from: nat)
    requires 1 <= from <= |a| && Boundary(a + b, |a|)
    ensures FirstCut(a + b, from) == FirstCut(a, from)
    decreases |a| - from
  {
    if from < |a| {
      assert Boundary(a + b, from) <==> Boundary(a, from) by {
        if from == |a| - 1 { assert (a + b)[|a|] == b[0] && IsUpper(b[0]); }
      }
      if !Boundary(a, from) { CutsAgree(a, b, from + 1); }
    }
  }

  lemma BoundaryShifts(a: string, b: string, n: nat)
    requires n < |a| && Boundary(a + b, |a|)
    ensures Boundary(a[n..] + b, |a[n..]|)
  {
    var m := |a| - n;
    assert (a[n..] + b)[m] == (a + b)[|a|] && (a[n..] + b)[m - 1] == (a + b)[|a| - 1];
    if |b| > 1 { assert (a[n..] + b)[m + 1] == (a + b)[|a| + 1]; }
  }

  /** The first piece of the front is the first piece of the whole. */
  lemma FirstPiece(a: string, b: string)
    requires |a| > 0 && Boundary(a + b, |a|)
    ensures CamelPieces(a + b) == [a[..FirstCut(a, 1)]] + CamelPieces(a[FirstCut(a, 1)..] + b)
  {
    var n := FirstCut(a, 1);
    CutsAgree(a, b, 1);
    assert (a + b)[..n] == a[..n] && (a + b)[n..] == a[n..] + b;
  }

  lemma Prepend(p: string, x: seq<string>, y: seq<string>)
    ensures [p] + (x + y) == ([p] + x) + y
  {
  }

  lemma OneCut(a: string)
    requires |a| > 0 && FirstCut(a, 1) == |a|
    ensures CamelPieces(a) == [a[..|a|]]
  {
    assert a[|a|..] == "";
  }

  /** A case boundary separates as a separator does. */
  lemma {:induction false} BoundarySplits(a: string, b: string)
    requires |a| > 0 && Boundary(a + b, |a|)
    ensures CamelPieces(a + b) == CamelPieces(a) + CamelPieces(b)
    decreases |a|
  {
    var n := FirstCut(a, 1);
    FirstPiece(a, b);
    if n < |a| {
      BoundaryShifts(a, b, n);
      BoundarySplits(a[n..], b);
      Prepend(a[..n], CamelPieces(a[n..]), CamelPieces(b));
    } else {
      OneCut(a);
      assert a[n..] + b == b;
    }
  }

  lemma {:induction false} RunOfWords(isWord: char -> bool, s: string)
    requires AllWord(isWord, s)
    ensures Run(isWord, s) == |s|
  {
    if |s| > 0 { RunOfWords(isWord, s[1..]); }
  }

  lemma OneChunk(isWord: char -> bool, s: string)
    requires |s| > 0 && AllWord(isWord, s)
    ensures Pieces(isWord, s) == CamelPieces(s)
  {
    RunOfWords(isWord, s);
    assert s[..|s|] == s;
    assert Chunks(isWord, s) == [s];
    assert PiecesOf([s]) == CamelPieces(s) + [];
  }

  lemma OnePiece(isWord: char -> bool, s: string)
    requires IsPiece(isWord, s)
    ensures CamelPieces(s) == [s]
  {
    var n := FirstCut(s, 1);
    assert n == |s| && s[..n] == s && s[n..] == "";
  }

  /** Two words joined by an underscore and the same two in camel case have the same tokens. */
  lemma SnakeIsCamel(A: Alphabet, a: string, b: string, capital: string)
    requires IsPiece(A.isWord, a) && IsPiece(A.isWord, b) && IsPiece(A.isWord, capital) && !A.isWord('_')
    requires Boundary(a + capital, |a|) && A.lower(capital) == A.lower(b)
    ensures Tokens(A, a + "_" + b) == Tokens(A, a + capital) == [A.lower(a), A.lower(b)]
  {
    SeparatorSplits(A, a, '_', b);
    OneChunk(A.isWord, a);
    OneChunk(A.isWord, b);
    OneChunk(A.isWord, a + capital);
    OnePiece(A.isWord, a);
    OnePiece(A.isWord, b);
    OnePiece(A.isWord, capital);
    BoundarySplits(a, capital);
    LoweredConcat(A.lower, [a], [capital]);
  }

  // ---------- frequencies ----------

  function Freq(doc: seq<string>, term: string): (n: nat)
    ensures n > 0 <==> term in doc
  {
    if |doc| == 0 then 0 else (if doc[0] == term then 1 else 0) + Freq(doc[1..], term)
  }

  function DocFreq(docs: seq<seq<string>>, term: string): (n: nat)
    ensures n <= |docs|
    ensures n > 0 <==> exists i | 0 <= i < |docs| :: term in docs[i]
  {
    if |docs| == 0 then 0
    else
      var rest := DocFreq(docs[1..], term);
      assert forall i | 0 <= i < |docs| - 1 :: docs[1..][i] == docs[i + 1];
      (if term in docs[0] then 1 else 0) + rest
  }

  function TotalLength(docs: seq<seq<string>>): nat {
    if |docs| == 0 then 0 else |docs[0]| + TotalLength(docs[1..])
  }

  /** `sum(...) / n or 1.0` */
  function AverageLength(docs: seq<seq<string>>): (r: real)
    requires |docs| > 0
    ensures r > 0.0
  {
    if TotalLength(docs) == 0 then 1.0 else TotalLength(docs) as real / |docs| as real
  }

  /** The average length is what its name says: `n` times it is the total, the sum over the documents. */
  lemma AverageTimesCount(docs: seq<seq<string>>)
    requires |docs| > 0
    ensures TotalLength(docs) > 0 ==> AverageLength(docs) * |docs| as real == TotalLength(docs) as real
    ensures TotalLength(docs) == 0 ==> AverageLength(docs) == 1.0
  {
    if TotalLength(docs) > 0 { TimesQuotient(TotalLength(docs) as real, |docs| as real); }
  }

  lemma TimesQuotient(a: real, b: real)
    requires b > 0.0
    ensures a / b * b == a
  {
  }

  lemma {:induction false} TotalIsSum(docs: seq<seq<string>>, last: seq<string>)
    ensures TotalLength([]) == 0 && TotalLength(docs + [last]) == TotalLength(docs) + |last|
  {
    if |docs| == 0 {
      assert docs + [last] == [last];
    } else {
      assert (docs + [last])[1..] == docs[1..] + [last];
      TotalIsSum(docs[1..], last);
    }
  }

  lemma {:induction false} FreqSnoc(doc: seq<string>, last: string, term: string)
    ensures Freq(doc + [last], term) == Freq(doc, term) + if last == term then 1 else 0
  {
    if |doc| == 0 {
      assert doc + [last] == [last];
    } else {
      assert (doc + [last])[1..] == doc[1..] + [last];
      FreqSnoc(doc[1..], last, term);
    }
  }

  lemma {:induction false} DocFreqSnoc(docs: seq<seq<string>>, last: seq<string>, term: string)
    ensures DocFreq(docs + [last], term) == DocFreq(docs, term) + if term in last then 1 else 0
  {
    if |docs| == 0 {
      assert docs + [last] == [last];
    } else {
      assert (docs + [last])[1..] == docs[1..] + [last];
      DocFreqSnoc(docs[1..], last, term);
    }
  }

  /** `freq.get(term, 0)` */
  function Get(freq: map<string, nat>, term: string): nat {
    if term in freq then freq[term] else 0
  }

  method CountTerms(doc: seq<string>) returns (freq: map<string, nat>)
    ensures forall term :: Get(freq, term) == Freq(doc, term)
  {
    freq := map[];
    for i := 0 to |doc|
      invariant forall term :: Get(freq, term) == Freq(doc[..i], term)
    {
      assert doc[..i + 1] == doc[..i] + [doc[i]];
      ghost var counted := doc[..i + 1];
      forall term ensures Freq(counted, term) == Freq(doc[..i], term) + if doc[i] == term then 1 else 0 {
        FreqSnoc(doc[..i], doc[i], term);
      }
      freq := freq[doc[i] := Get(freq, doc[i]) + 1];
    }
    assert doc[..|doc|] == doc;
  }

  /** A document's terms are counted once each. */
  method CountDoc(before: map<string, nat>, doc: seq<string>) returns (freq: map<string, nat>)
    ensures forall term :: Get(freq, term) == Get(before, term) + if term in doc then 1 else 0
  {
    freq := before;
    var terms := set term | term in doc;
    var left := terms;
    while left != {}
      invariant left <= terms
      invariant forall term :: Get(freq, term) == Get(before, term) + if term in terms && term !in left then 1 else 0
      decreases left
    {
      var term :| term in left;
      freq, left := freq[term := Get(freq, term) + 1], left - {term};
    }
  }

  method CountDocs(docs: seq<seq<string>>) returns (freq: map<string, nat>)
    ensures forall term :: Get(freq, term) == DocFreq(docs, term)
  {
    freq := map[];
    for i := 0 to |docs|
      invariant forall term :: Get(freq, term) == DocFreq(docs[..i], term)
    {
      assert docs[..i + 1] == docs[..i] + [docs[i]];
      ghost var counted := docs[..i + 1];
      forall term ensures DocFreq(counted, term) == DocFreq(docs[..i], term) + if term in docs[i] then 1 else 0 {
        DocFreqSnoc(docs[..i], docs[i], term);
      }
      freq := CountDoc(freq, docs[i]);
    }
    assert docs[..|docs|] == docs;
  }

  // ---------- scores ----------

  datatype Bm25 = Bm25(k1: real, b: real, log: real -> real)

  function LengthFactor(m: Bm25, length: nat, average: real): real
    requires average > 0.0
  {
    1.0 - m.b + m.b * length as real / average
  }

  function Denominator(m: Bm25, freq: nat, length: nat, average: real): real
    requires average > 0.0
  {
    freq as real + m.k1 * LengthFactor(m, length, average)
  }

  function Idf(m: Bm25, docFreq: nat, n: nat): real {
    m.log(1.0 + (n as real - docFreq as real + 0.5) / (docFreq as real + 0.5))
  }

  /** What one query term adds; None for a division by zero. */
  function Term(m: Bm25, freq: nat, docFreq: nat, n: nat, length: nat, average: real): Option<real>
    requires average > 0.0
  {
    if freq == 0 then Some(0.0)
    else if Denominator(m, freq, length, average) == 0.0 then None
    else Some(Idf(m, docFreq, n) * (freq as real * (m.k1 + 1.0)) / Denominator(m, freq, length, average))
  }

  /** What a term adds to a document's score. */
  function Weigher(m: Bm25, doc: seq<string>, docs: seq<seq<string>>): string -> Option<real>
    requires |docs| > 0
  {
    (term: string) => Term(m, Freq(doc, term), DocFreq(docs, term), |docs|, |doc|, AverageLength(docs))
  }

  /** The sum over the query's terms, if all are defined. */
  function Summed(weigh: string -> Option<real>, query: seq<string>): Option<real> {
    if |query| == 0 then Some(0.0)
    else
      var before, here := Summed(weigh, query[..|query| - 1]), weigh(query[|query| - 1]);
      if before.None? || here.None? then None else Some(before.value + here.value)
  }

  function Score(m: Bm25, query: seq<string>, doc: seq<string>, docs: seq<seq<string>>): Option<real>
    requires |docs| > 0
  {
    Summed(Weigher(m, doc, docs), query)
  }

  /** The model's parameters where its formula is meant to be used. */
  ghost predicate Sound(m: Bm25) {
    m.k1 >= 0.0 && 0.0 <= m.b <= 1.0 && forall x: real :: x > 1.0 ==> m.log(x) > 0.0
  }

  lemma QuotientIsPositive(a: real, b: real)
    requires a > 0.0 && b > 0.0
    ensures a / b > 0.0
  {
  }

  lemma QuotientIsNotNegative(a: real, b: real)
    requires a >= 0.0 && b > 0.0
    ensures a / b >= 0.0
  {
    if a > 0.0 { QuotientIsPositive(a, b); }
  }

  lemma ProductIsPositive(a: real, b: real)
    requires a > 0.0 && b > 0.0
    ensures a * b > 0.0
  {
  }

  lemma ProductIsNotNegative(a: real, b: real)
    requires a >= 0.0 && b >= 0.0
    ensures a * b >= 0.0
  {
  }

  /** Every denominator is positive. */
  lemma DenominatorIsPositive(m: Bm25, freq: nat, length: nat, average: real)
    requires Sound(m) && average > 0.0 && freq > 0
    ensures Denominator(m, freq, length, average) >= 1.0
  {
    ProductIsNotNegative(m.b, length as real);
    QuotientIsNotNegative(m.b * length as real, average);
    ProductIsNotNegative(m.k1, LengthFactor(m, length, average));
  }

  /** A term that occurs adds to the score. */
  lemma TermIsPositive(m: Bm25, freq: nat, docFreq: nat, n: nat, length: nat, average: real)
    requires Sound(m) && average > 0.0 && freq > 0 && 1 <= docFreq <= n
    ensures Term(m, freq, docFreq, n, length, average).Some? && Term(m, freq, docFreq, n, length, average).value > 0.0
  {
    DenominatorIsPositive(m, freq, length, average);
    QuotientIsPositive(n as real - docFreq as real + 0.5, docFreq as real + 0.5);
    ProductIsPositive(freq as real, m.k1 + 1.0);
    ProductIsPositive(Idf(m, docFreq, n), freq as real * (m.k1 + 1.0));
    QuotientIsPositive(Idf(m, docFreq, n) * (freq as real * (m.k1 + 1.0)), Denominator(m, freq, length, average));
  }

  predicate SharesToken(query: seq<string>, doc: seq<string>) {
    exists i | 0 <= i < |query| :: query[i] in doc
  }

  /** Terms a document holds weigh something, the others nothing. */
  lemma WeightIsPositive(m: Bm25, term: string, docs: seq<seq<string>>, d: nat)
    requires Sound(m) && d < |docs|
    ensures var w := Weigher(m, docs[d], docs)(term);
            w.Some? && (if term in docs[d] then w.value > 0.0 else w.value == 0.0)
  {
    if term in docs[d] {
      TermIsPositive(m, Freq(docs[d], term), DocFreq(docs, term), |docs|, |docs[d]|, AverageLength(docs));
    }
  }

  lemma {:induction false} SumIsPositive(weigh: string -> Option<real>, query: seq<string>, doc: seq<string>)
    requires forall i | 0 <= i < |query| ::
               weigh(query[i]).Some? &&
               if query[i] in doc then weigh(query[i]).value > 0.0 else weigh(query[i]).value == 0.0
    ensures var s := Summed(weigh, query);
            s.Some? && s.value >= 0.0 && (s.value > 0.0 <==> SharesToken(query, doc))
  {
    if |query| > 0 {
      var rest, term := query[..|query| - 1], query[|query| - 1];
      SumIsPositive(weigh, rest, doc);
      assert SharesToken(query, doc) <==> SharesToken(rest, doc) || term in doc by {
        assert forall i | 0 <= i < |rest| :: rest[i] == query[i];
        if term in doc { assert query[|query| - 1] in doc; }
      }
    }
  }

  /** A document's score is defined, and positive exactly when it shares a token with the query. */
  lemma ScoreIsPositive(m: Bm25, query: seq<string>, docs: seq<seq<string>>, d: nat)
    requires Sound(m) && d < |docs|
    ensures var s := Score(m, query, docs[d], docs);
            s.Some? && s.value >= 0.0 && (s.value > 0.0 <==> SharesToken(query, docs[d]))
  {
    forall i | 0 <= i < |query|
      ensures var w := Weigher(m, docs[d], docs)(query[i]);
              w.Some? && if query[i] in docs[d] then w.value > 0.0 else w.value == 0.0
    {
      WeightIsPositive(m, query[i], docs, d);
    }
    SumIsPositive(Weigher(m, docs[d], docs), query, docs[d]);
  }

  // ---------- what the score measures ----------

  /** `w * f / (f + d)`: what a frequency counts for, levelling off. */
  ghost function Saturated(w: real, f: real, d: real): real {
    if f + d > 0.0 then w * f / (f + d) else 0.0
  }

  /** BM25 as it is usually written, with the inverse document frequency in one fraction. */
  ghost function Bm25Weight(m: Bm25, freq: nat, docFreq: nat, n: nat, length: nat, average: real): real
    requires average > 0.0
  {
    Saturated(m.log((n as real + 1.0) / (docFreq as real + 0.5)) * (m.k1 + 1.0), freq as real,
              m.k1 * (1.0 - m.b + m.b * length as real / average))
  }

  lemma QuotientIs(a: real, b: real, q: real)
    requires b > 0.0 && a == q * b
    ensures a / b == q
  {
  }

  lemma OneFraction(docFreq: nat, n: nat)
    ensures 1.0 + (n as real - docFreq as real + 0.5) / (docFreq as real + 0.5)
         == (n as real + 1.0) / (docFreq as real + 0.5)
  {
    var y := docFreq as real + 0.5;
    var q := (n as real - docFreq as real + 0.5) / y;
    assert q * y == n as real - docFreq as real + 0.5;
    QuotientIs(n as real + 1.0, y, 1.0 + q);
  }

  lemma Regroup(a: real, f: real, k: real)
    ensures a * (f * k) == (a * k) * f
  {
  }

  lemma TermSaturates(m: Bm25, freq: nat, docFreq: nat, n: nat, length: nat, average: real)
    requires Sound(m) && average > 0.0 && freq > 0
    ensures Term(m, freq, docFreq, n, length, average).Some?
    ensures Term(m, freq, docFreq, n, length, average).value ==
              Saturated(Idf(m, docFreq, n) * (m.k1 + 1.0), freq as real, m.k1 * LengthFactor(m, length, average))
  {
    DenominatorIsPositive(m, freq, length, average);
    var idf, den := Idf(m, docFreq, n), Denominator(m, freq, length, average);
    calc {
      Term(m, freq, docFreq, n, length, average).value;
      idf * (freq as real * (m.k1 + 1.0)) / den;
      { Regroup(idf, freq as real, m.k1 + 1.0); }
      (idf * (m.k1 + 1.0)) * freq as real / den;
    }
  }

  lemma TermIsWeight(m: Bm25, freq: nat, docFreq: nat, n: nat, length: nat, average: real)
    requires Sound(m) && average > 0.0 && freq > 0
    ensures Term(m, freq, docFreq, n, length, average).Some?
    ensures Term(m, freq, docFreq, n, length, average).value == Bm25Weight(m, freq, docFreq, n, length, average)
  {
    TermSaturates(m, freq, docFreq, n, length, average);
    OneFraction(docFreq, n);
    calc {
      Saturated(Idf(m, docFreq, n) * (m.k1 + 1.0), freq as real, m.k1 * LengthFactor(m, length, average));
      Bm25Weight(m, freq, docFreq, n, length, average);
    }
  }

  lemma SumSnoc(weigh: string -> Option<real>, query: seq<string>, term: string)
    requires Summed(weigh, query).Some? && weigh(term).Some?
    ensures Summed(weigh, query + [term]) == Some(Summed(weigh, query).value + weigh(term).value)
  {
    assert (query + [term])[..|query|] == query;
  }

  lemma WeighsBm25(m: Bm25, term: string, docs: seq<seq<string>>, d: nat)
    requires Sound(m) && d < |docs|
    ensures Weigher(m, docs[d], docs)(term) ==
              Some(if term in docs[d] then
                     Bm25Weight(m, Freq(docs[d], term), DocFreq(docs, term), |docs|, |docs[d]|, AverageLength(docs))
                   else 0.0)
  {
    WeightIsPositive(m, term, docs, d);
    if term in docs[d] {
      TermIsWeight(m, Freq(docs[d], term), DocFreq(docs, term), |docs|, |docs[d]|, AverageLength(docs));
    }
  }

  /** A query term adds its weight to the score of a document that holds it, and nothing to the others. */
  lemma ScoreAddsWeights(m: Bm25, query: seq<string>, term: string, docs: seq<seq<string>>, d: nat)
    requires Sound(m) && d < |docs|
    ensures Score(m, [], docs[d], docs) == Some(0.0) && Score(m, query, docs[d], docs).Some?
    ensures Score(m, query + [term], docs[d], docs) ==
              Some(Score(m, query, docs[d], docs).value +
                   if term in docs[d] then
                     Bm25Weight(m, Freq(docs[d], term), DocFreq(docs, term), |docs|, |docs[d]|, AverageLength(docs))
                   else 0.0)
  {
    ScoreIsPositive(m, query, docs, d);
    WeighsBm25(m, term, docs, d);
    SumSnoc(Weigher(m, docs[d], docs), query, term);
  }

  lemma QuotientLess(a: real, b: real, c: real, d: real)
    requires b > 0.0 && d > 0.0
    ensures a * d < c * b ==> a / b < c / d
    ensures a * d <= c * b ==> a / b <= c / d
  {
    var x, y := a / b, c / d;
    assert a == x * b && c == y * d;
    if y < x {
      ProductIsPositive(x - y, b * d);
      assert a * d == x * (b * d) && c * b == y * (b * d);
    }
    if y == x { assert a * d == c * b; }
  }

  lemma ProductGrows(a: real, x: real, y: real)
    requires a >= 0.0 && x <= y
    ensures a * x <= a * y && (a > 0.0 && x < y ==> a * x < a * y)
  {
  }

  /** More of a term, or less to divide it by, weighs more. */
  lemma SaturationGrows(w: real, f: real, d: real, g: real, e: real)
    requires w > 0.0 && f >= g >= 1.0 && 0.0 <= d <= e
    ensures Saturated(w, g, e) <= Saturated(w, f, d)
    ensures (f > g && e > 0.0) || d < e ==> Saturated(w, g, e) < Saturated(w, f, d)
  {
    CrossGrows(f, d, g, e);
    ProductGrows(w, g * (f + d), f * (g + e));
    assert w * g * (f + d) == w * (g * (f + d)) && w * f * (g + e) == w * (f * (g + e));
    QuotientLess(w * g, g + e, w * f, f + d);
  }

  lemma CrossGrows(f: real, d: real, g: real, e: real)
    requires f >= g >= 1.0 && 0.0 <= d <= e
    ensures g * (f + d) <= f * (g + e)
    ensures (f > g && e > 0.0) || d < e ==> g * (f + d) < f * (g + e)
  {
    ProductGrows(g, d, e);
    ProductGrows(e, g, f);
    assert g * (f + d) == f * g + g * d && f * (g + e) == f * g + e * f && g * e == e * g;
  }

  lemma QuotientGrows(a: real, c: real, d: real)
    requires d > 0.0
    ensures a <= c ==> a / d <= c / d
    ensures a < c ==> a / d < c / d
  {
    var x, y := a / d, c / d;
    assert a == x * d && c == y * d;
    if y < x { ProductGrows(d, y, x); }
  }

  lemma FactorIs(m: Bm25, length: nat, average: real) returns (q: real)
    requires Sound(m) && average > 0.0
    ensures LengthFactor(m, length, average) == 1.0 - m.b + q && q == m.b * length as real / average
    ensures q >= 0.0 && (m.b > 0.0 && length > 0 ==> q > 0.0)
  {
    q := LengthFactor(m, length, average) - (1.0 - m.b);
    assert q == m.b * length as real / average;
    ProductIsNotNegative(m.b, length as real);
    QuotientIsNotNegative(m.b * length as real, average);
    if m.b > 0.0 && length > 0 {
      ProductIsPositive(m.b, length as real);
      QuotientIsPositive(m.b * length as real, average);
    }
  }

  lemma FactorIsPositive(m: Bm25, length: nat, average: real)
    requires Sound(m) && average > 0.0
    ensures LengthFactor(m, length, average) >= 0.0 && (length > 0 ==> LengthFactor(m, length, average) > 0.0)
  {
    var q := FactorIs(m, length, average);
  }

  lemma FactorGrows(m: Bm25, short: nat, long: nat, average: real)
    requires Sound(m) && average > 0.0 && short <= long
    ensures LengthFactor(m, short, average) <= LengthFactor(m, long, average)
    ensures m.b > 0.0 && short < long ==> LengthFactor(m, short, average) < LengthFactor(m, long, average)
  {
    var p := FactorIs(m, short, average);
    var q := FactorIs(m, long, average);
    ProductGrows(m.b, short as real, long as real);
    QuotientGrows(m.b * short as real, m.b * long as real, average);
  }

  /** Longer documents are divided by more. */
  lemma LengthCounts(m: Bm25, short: nat, long: nat, average: real)
    requires Sound(m) && average > 0.0 && short <= long
    ensures var d, e := m.k1 * LengthFactor(m, short, average), m.k1 * LengthFactor(m, long, average);
            0.0 <= d <= e && (m.k1 > 0.0 && m.b > 0.0 && short < long ==> d < e) &&
            (m.k1 > 0.0 && long > 0 ==> e > 0.0)
  {
    FactorIsPositive(m, short, average);
    FactorIsPositive(m, long, average);
    FactorGrows(m, short, long, average);
    var f, g := LengthFactor(m, short, average), LengthFactor(m, long, average);
    ProductIsNotNegative(m.k1, f);
    ProductGrows(m.k1, f, g);
    if m.k1 > 0.0 && long > 0 { ProductIsPositive(m.k1, g); }
  }

  lemma TermLevelsOff(m: Bm25, w: real, d: real, freq: nat, docFreq: nat, n: nat, length: nat, average: real)
    requires Sound(m) && average > 0.0 && freq > 0
    requires w == Idf(m, docFreq, n) * (m.k1 + 1.0) && d == m.k1 * LengthFactor(m, length, average)
    ensures Term(m, freq, docFreq, n, length, average) == Some(Saturated(w, freq as real, d))
  {
    TermSaturates(m, freq, docFreq, n, length, average);
  }

  /** Both terms level off from one weight, the longer document's more slowly. */
  lemma Weights(m: Bm25, docFreq: nat, n: nat, short: nat, long: nat, average: real)
    returns (w: real, d: real, e: real)
    requires Sound(m) && average > 0.0 && short <= long && long > 0 && docFreq <= n
    ensures w == Idf(m, docFreq, n) * (m.k1 + 1.0) && w > 0.0
    ensures d == m.k1 * LengthFactor(m, short, average) && e == m.k1 * LengthFactor(m, long, average)
    ensures 0.0 <= d <= e && (m.k1 > 0.0 ==> e > 0.0) && (short < long && m.k1 > 0.0 && m.b > 0.0 ==> d < e)
  {
    w, d, e := Idf(m, docFreq, n) * (m.k1 + 1.0), m.k1 * LengthFactor(m, short, average),
               m.k1 * LengthFactor(m, long, average);
    IdfIsPositive(m, docFreq, n);
    LengthCounts(m, short, long, average);
  }

  lemma HeldTermDominates(m: Bm25, f: nat, g: nat, docFreq: nat, n: nat, short: nat, long: nat, average: real)
    requires Sound(m) && average > 0.0 && f >= g > 0 && short <= long && long > 0 && 1 <= docFreq <= n
    ensures var better, worse := Term(m, f, docFreq, n, short, average), Term(m, g, docFreq, n, long, average);
            better.Some? && worse.Some? && worse.value <= better.value &&
            (f > g && m.k1 > 0.0 ==> worse.value < better.value) &&
            (short < long && m.k1 > 0.0 && m.b > 0.0 ==> worse.value < better.value)
  {
    var w, d, e := Weights(m, docFreq, n, short, long, average);
    TermLevelsOff(m, w, d, f, docFreq, n, short, average);
    TermLevelsOff(m, w, e, g, docFreq, n, long, average);
    SaturationGrows(w, f as real, d, g as real, e);
  }

  lemma IdfIsPositive(m: Bm25, docFreq: nat, n: nat)
    requires Sound(m) && docFreq <= n
    ensures Idf(m, docFreq, n) > 0.0 && Idf(m, docFreq, n) * (m.k1 + 1.0) > 0.0
  {
    QuotientIsPositive(n as real - docFreq as real + 0.5, docFreq as real + 0.5);
    ProductIsPositive(Idf(m, docFreq, n), m.k1 + 1.0);
  }

  lemma TermDominates(m: Bm25, f: nat, g: nat, docFreq: nat, n: nat, short: nat, long: nat, average: real)
    requires Sound(m) && average > 0.0 && f >= g && short <= long && 1 <= docFreq <= n
    requires g > 0 ==> long > 0
    ensures var better, worse := Term(m, f, docFreq, n, short, average), Term(m, g, docFreq, n, long, average);
            better.Some? && worse.Some? && worse.value <= better.value &&
            (f > g && (m.k1 > 0.0 || g == 0) ==> worse.value < better.value) &&
            (g > 0 && short < long && m.k1 > 0.0 && m.b > 0.0 ==> worse.value < better.value)
  {
    if g > 0 {
      HeldTermDominates(m, f, g, docFreq, n, short, long, average);
    } else if f > 0 {
      TermIsPositive(m, f, docFreq, n, short, average);
    }
  }

  /** The first document has each query term at least as often as the second, and is no longer. */
  predicate Dominates(query: seq<string>, a: seq<string>, b: seq<string>) {
    |a| <= |b| && forall i | 0 <= i < |query| :: Freq(a, query[i]) >= Freq(b, query[i])
  }

  /** It has this term more often, or is shorter and has it as well. */
  predicate Better(m: Bm25, term: string, a: seq<string>, b: seq<string>) {
    (Freq(a, term) > Freq(b, term) && (m.k1 > 0.0 || Freq(b, term) == 0)) ||
    (Freq(b, term) > 0 && |a| < |b| && m.k1 > 0.0 && m.b > 0.0)
  }

  lemma {:induction false} SumDominates(x: string -> Option<real>, y: string -> Option<real>, query: seq<string>)
    requires forall i | 0 <= i < |query| ::
               x(query[i]).Some? && y(query[i]).Some? && y(query[i]).value <= x(query[i]).value
    ensures Summed(x, query).Some? && Summed(y, query).Some? && Summed(y, query).value <= Summed(x, query).value
    ensures (exists i | 0 <= i < |query| :: y(query[i]).value < x(query[i]).value) ==>
              Summed(y, query).value < Summed(x, query).value
  {
    if |query| > 0 {
      var rest := query[..|query| - 1];
      SumDominates(x, y, rest);
      if i :| 0 <= i < |query| && y(query[i]).value < x(query[i]).value {
        assert i < |rest| ==> rest[i] == query[i];
      }
    }
  }

  lemma WeightDominates(m: Bm25, term: string, docs: seq<seq<string>>, a: nat, b: nat)
    requires Sound(m) && a < |docs| && b < |docs| && |docs[a]| <= |docs[b]|
    requires Freq(docs[a], term) >= Freq(docs[b], term)
    ensures var x, y := Weigher(m, docs[a], docs)(term), Weigher(m, docs[b], docs)(term);
            x.Some? && y.Some? && y.value <= x.value && (Better(m, term, docs[a], docs[b]) ==> y.value < x.value)
  {
    if term in docs[a] {
      TermDominates(m, Freq(docs[a], term), Freq(docs[b], term), DocFreq(docs, term), |docs|,
                    |docs[a]|, |docs[b]|, AverageLength(docs));
    }
  }

  /** A document with every query term at least as often, and no longer, never scores less; it scores more
      if it has one of them more often, or if it is shorter and they share one. */
  lemma MoreAndShorterScoresMore(m: Bm25, query: seq<string>, docs: seq<seq<string>>, a: nat, b: nat)
    requires Sound(m) && a < |docs| && b < |docs| && Dominates(query, docs[a], docs[b])
    ensures var x, y := Score(m, query, docs[a], docs), Score(m, query, docs[b], docs);
            x.Some? && y.Some? && y.value <= x.value &&
            ((exists i | 0 <= i < |query| :: Better(m, query[i], docs[a], docs[b])) ==> y.value < x.value)
  {
    var x, y := Weigher(m, docs[a], docs), Weigher(m, docs[b], docs);
    forall i | 0 <= i < |query|
      ensures x(query[i]).Some? && y(query[i]).Some? && y(query[i]).value <= x(query[i]).value
      ensures Better(m, query[i], docs[a], docs[b]) ==> y(query[i]).value < x(query[i]).value
    {
      WeightDominates(m, query[i], docs, a, b);
    }
    SumDominates(x, y, query);
  }

  ghost predicate LogIncreases(m: Bm25) {
    forall x: real, y: real :: 1.0 < x < y ==> m.log(x) < m.log(y)
  }

  lemma TimesGrows(v: real, w: real, f: real)
    requires v < w && f > 0.0
    ensures v * f < w * f
  {
    assert (w - v) * f > 0.0 by { ProductIsPositive(w - v, f); }
  }

  lemma HeavierWeighsMore(w: real, v: real, f: real, d: real)
    requires v < w && f > 0.0 && d >= 0.0
    ensures Saturated(v, f, d) < Saturated(w, f, d)
  {
    TimesGrows(v, w, f);
    QuotientGrows(v * f, w * f, f + d);
  }

  lemma RarerTerm(m: Bm25, freq: nat, rare: nat, common: nat, n: nat, length: nat, average: real)
    requires Sound(m) && LogIncreases(m) && average > 0.0 && freq > 0 && 1 <= rare < common <= n
    ensures var x, y := Term(m, freq, rare, n, length, average), Term(m, freq, common, n, length, average);
            x.Some? && y.Some? && y.value < x.value
  {
    RarerFraction(rare, common, n);
    var w, v := Idf(m, rare, n) * (m.k1 + 1.0), Idf(m, common, n) * (m.k1 + 1.0);
    assert v < w by { ProductGrows(m.k1 + 1.0, Idf(m, common, n), Idf(m, rare, n)); }
    var d := m.k1 * LengthFactor(m, length, average);
    assert d >= 0.0 by { LengthCounts(m, length, length, average); }
    assert Term(m, freq, rare, n, length, average) == Some(Saturated(w, freq as real, d)) by {
      TermSaturates(m, freq, rare, n, length, average);
    }
    assert Term(m, freq, common, n, length, average) == Some(Saturated(v, freq as real, d)) by {
      TermSaturates(m, freq, common, n, length, average);
    }
    HeavierWeighsMore(w, v, freq as real, d);
  }

  lemma RarerFraction(rare: nat, common: nat, n: nat)
    requires 1 <= rare < common <= n
    ensures 1.0 < 1.0 + (n as real - common as real + 0.5) / (common as real + 0.5)
                < 1.0 + (n as real - rare as real + 0.5) / (rare as real + 0.5)
  {
    QuotientIsPositive(n as real - common as real + 0.5, common as real + 0.5);
    OneFraction(rare, n);
    OneFraction(common, n);
    ProductGrows(n as real + 1.0, rare as real + 0.5, common as real + 0.5);
    QuotientLess(n as real + 1.0, common as real + 0.5, n as real + 1.0, rare as real + 0.5);
  }

  /** Of two terms a document holds equally often, the one in fewer documents adds more to its score. */
  lemma RarerTermScoresMore(m: Bm25, query: seq<string>, docs: seq<seq<string>>, d: nat, rare: string, common: string)
    requires Sound(m) && LogIncreases(m) && d < |docs|
    requires Freq(docs[d], rare) == Freq(docs[d], common) > 0 && DocFreq(docs, rare) < DocFreq(docs, common)
    ensures var x := Score(m, query + [rare], docs[d], docs);
            var y := Score(m, query + [common], docs[d], docs);
            x.Some? && y.Some? && y.value < x.value
  {
    ScoreAddsWeights(m, query, rare, docs, d);
    ScoreAddsWeights(m, query, common, docs, d);
    assert (query + [rare])[..|query|] == query && (query + [common])[..|query|] == query;
    assert rare in docs[d];
    RarerTerm(m, Freq(docs[d], rare), DocFreq(docs, rare), DocFreq(docs, common), |docs|, |docs[d]|, AverageLength(docs));
  }

  /** Of two equally long documents that differ in which of two terms they hold, equally often, the one
      with the rarer term scores more. */
  lemma RarerMatchScoresMore(m: Bm25, query: seq<string>, docs: seq<seq<string>>, a: nat, b: nat,
                             rare: string, common: string)
    requires Sound(m) && LogIncreases(m) && a < |docs| && b < |docs| && |docs[a]| == |docs[b]|
    requires forall i | 0 <= i < |query| :: Freq(docs[a], query[i]) == Freq(docs[b], query[i])
    requires Freq(docs[a], rare) == Freq(docs[b], common) > 0 && DocFreq(docs, rare) < DocFreq(docs, common)
    requires rare !in docs[b] && common !in docs[a]
    ensures var x := Score(m, query + [rare] + [common], docs[a], docs);
            var y := Score(m, query + [rare] + [common], docs[b], docs);
            x.Some? && y.Some? && y.value < x.value
  {
    MoreAndShorterScoresMore(m, query, docs, a, b);
    MoreAndShorterScoresMore(m, query, docs, b, a);
    OnlyFirst(m, query, docs, a, rare, common);
    OnlySecond(m, query, docs, b, rare, common);
    OneWeight(m, Freq(docs[a], rare), DocFreq(docs, rare), DocFreq(docs, common), |docs|, |docs[a]|, AverageLength(docs));
  }

  lemma OnlyFirst(m: Bm25, query: seq<string>, docs: seq<seq<string>>, d: nat, first: string, second: string)
    requires Sound(m) && d < |docs| && first in docs[d] && second !in docs[d]
    ensures Score(m, query, docs[d], docs).Some?
    ensures var freq, length, average := Freq(docs[d], first), |docs[d]|, AverageLength(docs);
            Score(m, query + [first] + [second], docs[d], docs) ==
              Some(Score(m, query, docs[d], docs).value +
                   Bm25Weight(m, freq, DocFreq(docs, first), |docs|, length, average))
  {
    ScoreAddsWeights(m, query, first, docs, d);
    ScoreAddsWeights(m, query + [first], second, docs, d);
  }

  lemma OnlySecond(m: Bm25, query: seq<string>, docs: seq<seq<string>>, d: nat, first: string, second: string)
    requires Sound(m) && d < |docs| && first !in docs[d] && second in docs[d]
    ensures Score(m, query, docs[d], docs).Some?
    ensures var freq, length, average := Freq(docs[d], second), |docs[d]|, AverageLength(docs);
            Score(m, query + [first] + [second], docs[d], docs) ==
              Some(Score(m, query, docs[d], docs).value +
                   Bm25Weight(m, freq, DocFreq(docs, second), |docs|, length, average))
  {
    ScoreAddsWeights(m, query, first, docs, d);
    ScoreAddsWeights(m, query + [first], second, docs, d);
  }

  lemma OneWeight(m: Bm25, freq: nat, rare: nat, common: nat, n: nat, length: nat, average: real)
    requires Sound(m) && LogIncreases(m) && average > 0.0 && freq > 0 && 1 <= rare < common <= n
    ensures Bm25Weight(m, freq, common, n, length, average) < Bm25Weight(m, freq, rare, n, length, average)
  {
    RarerTerm(m, freq, rare, common, n, length, average);
    TermIsWeight(m, freq, rare, n, length, average);
    TermIsWeight(m, freq, common, n, length, average);
  }

  // ---------- order ----------

  /** Relevance first, then the original order. */
  predicate Precedes(scores: seq<real>, i: nat, j: nat)
    requires i < |scores| && j < |scores|
  {
    scores[i] > scores[j] || (scores[i] == scores[j] && i < j)
  }

  predicate InRange(scores: seq<real>, order: seq<nat>) {
    forall k | 0 <= k < |order| :: order[k] < |scores|
  }

  function Insert(scores: seq<real>, i: nat, order: seq<nat>): (r: seq<nat>)
    requires i < |scores| && InRange(scores, order)
    ensures InRange(scores, r) && forall x :: x in r <==> x == i || x in order
  {
    if |order| == 0 || Precedes(scores, i, order[0]) then [i] + order
    else
      assert InRange(scores, order[1..]);
      [order[0]] + Insert(scores, i, order[1..])
  }

  /** `scored.sort(key=lambda s: (-s[0], s[1]))` */
  function Sorted(scores: seq<real>, n: nat): (r: seq<nat>)
    requires n <= |scores|
    ensures InRange(scores, r)
  {
    if n == 0 then [] else Insert(scores, n - 1, Sorted(scores, n - 1))
  }

  function Positive(scores: seq<real>, order: seq<nat>): (r: seq<nat>)
    requires InRange(scores, order)
    ensures InRange(scores, r)
    ensures forall i :: i in r <==> i in order && scores[i] > 0.0
  {
    if |order| == 0 then []
    else
      assert InRange(scores, order[1..]);
      (if scores[order[0]] > 0.0 then [order[0]] else []) + Positive(scores, order[1..])
  }

  function Ranked(scores: seq<real>): (r: seq<nat>)
    ensures InRange(scores, r)
  {
    Positive(scores, Sorted(scores, |scores|))
  }

  ghost predicate InOrder(scores: seq<real>, order: seq<nat>) {
    InRange(scores, order) && forall a, b | 0 <= a < b < |order| :: Precedes(scores, order[a], order[b])
  }

  lemma {:induction false} InsertKeepsOrder(scores: seq<real>, i: nat, order: seq<nat>)
    requires i < |scores| && InOrder(scores, order) && i !in order
    ensures InOrder(scores, Insert(scores, i, order))
  {
    if |order| == 0 || Precedes(scores, i, order[0]) {
    } else {
      assert InOrder(scores, order[1..]);
      InsertKeepsOrder(scores, i, order[1..]);
      var rest := Insert(scores, i, order[1..]);
      forall b | 0 <= b < |rest| ensures Precedes(scores, order[0], rest[b]) {
        assert rest[b] in rest;
      }
    }
  }

  lemma {:induction false} SortedIsExact(scores: seq<real>, n: nat)
    requires n <= |scores|
    ensures InOrder(scores, Sorted(scores, n))
    ensures forall i :: i in Sorted(scores, n) <==> 0 <= i < n
  {
    if n > 0 {
      SortedIsExact(scores, n - 1);
      var before := Sorted(scores, n - 1);
      assert n - 1 !in before;
      InsertKeepsOrder(scores, n - 1, before);
      assert forall i :: i in Insert(scores, n - 1, before) <==> i == n - 1 || i in before;
    }
  }

  lemma {:induction false} PositiveKeepsOrder(scores: seq<real>, order: seq<nat>)
    requires InOrder(scores, order)
    ensures InOrder(scores, Positive(scores, order))
  {
    if |order| > 0 {
      PositiveKeepsOrder(scores, order[1..]);
      var rest := Positive(scores, order[1..]);
      forall b | 0 <= b < |rest| ensures Precedes(scores, order[0], rest[b]) {
        assert rest[b] in order[1..];
      }
    }
  }

  /** The ranking lists exactly the positive scores, each once, by score and then original order. */
  lemma RankedIsExact(scores: seq<real>)
    ensures InOrder(scores, Ranked(scores))
    ensures forall a, b | 0 <= a < b < |Ranked(scores)| ::
              var i, j := Ranked(scores)[a], Ranked(scores)[b];
              scores[i] > scores[j] || (scores[i] == scores[j] && i < j)
    ensures forall i: nat :: i in Ranked(scores) <==> i < |scores| && scores[i] > 0.0
  {
    SortedIsExact(scores, |scores|);
    PositiveKeepsOrder(scores, Sorted(scores, |scores|));
    forall a, b | 0 <= a < b < |Ranked(scores)| ensures Precedes(scores, Ranked(scores)[a], Ranked(scores)[b]) {}
  }

  function Pick(tools: seq<Tool>, order: seq<nat>): (r: seq<Tool>)
    requires forall k | 0 <= k < |order| :: order[k] < |tools|
    ensures |r| == |order| && forall k | 0 <= k < |r| :: r[k] == tools[order[k]]
  {
    seq(|order|, k requires 0 <= k < |order| => tools[order[k]])
  }

  function Documents(A: Alphabet, tools: seq<Tool>): (docs: seq<seq<string>>)
    ensures |docs| == |tools|
    ensures forall i | 0 <= i < |tools| :: docs[i] == Tokens(A, tools[i].name + " " + tools[i].description)
  {
    seq(|tools|, i requires 0 <= i < |tools| => Tokens(A, tools[i].name + " " + tools[i].description))
  }

  /** No document's score divides by zero. */
  ghost predicate Defined(m: Bm25, query: seq<string>, docs: seq<seq<string>>) {
    forall i | 0 <= i < |docs| :: Score(m, query, docs[i], docs).Some?
  }

  ghost function Scores(m: Bm25, query: seq<string>, docs: seq<seq<string>>): (scores: seq<real>)
    requires Defined(m, query, docs)
    ensures |scores| == |docs| && forall i | 0 <= i < |docs| :: Score(m, query, docs[i], docs) == Some(scores[i])
  {
    seq(|docs|, i requires 0 <= i < |docs| && Score(m, query, docs[i], docs).Some? =>
                  Score(m, query, docs[i], docs).value)
  }

  /** One turn of the loop over the query. */
  lemma SumNext(weigh: string -> Option<real>, query: seq<string>, i: nat)
    requires i < |query| && Summed(weigh, query[..i]).Some?
    ensures Summed(weigh, query[..i + 1]) ==
              if weigh(query[i]).None? then None else Some(Summed(weigh, query[..i]).value + weigh(query[i]).value)
  {
    assert query[..i + 1][..i] == query[..i];
  }

  ghost function Scorer(m: Bm25, query: seq<string>, docs: seq<seq<string>>): seq<string> -> Option<real>
    requires |docs| > 0
  {
    (doc: seq<string>) => Score(m, query, doc, docs)
  }

  /** These are the scores of the first documents. */
  ghost predicate AreScores(score: seq<string> -> Option<real>, docs: seq<seq<string>>, scored: seq<real>) {
    |scored| <= |docs| && forall j | 0 <= j < |scored| :: score(docs[j]) == Some(scored[j])
  }

  lemma NextScore(score: seq<string> -> Option<real>, docs: seq<seq<string>>, scored: seq<real>, next: real)
    requires AreScores(score, docs, scored) && |scored| < |docs| && score(docs[|scored|]) == Some(next)
    ensures AreScores(score, docs, scored + [next])
  {
  }

  lemma AllScored(m: Bm25, query: seq<string>, docs: seq<seq<string>>, scored: seq<real>)
    requires |scored| == |docs| > 0 && AreScores(Scorer(m, query, docs), docs, scored)
    ensures Defined(m, query, docs) && scored == Scores(m, query, docs)
  {
    forall j | 0 <= j < |docs| ensures Score(m, query, docs[j], docs) == Some(scored[j]) {
      assert Scorer(m, query, docs)(docs[j]) == Some(scored[j]);
    }
  }

  lemma OneUndefined(m: Bm25, query: seq<string>, docs: seq<seq<string>>, i: nat)
    requires i < |docs| && Score(m, query, docs[i], docs).None?
    ensures !Defined(m, query, docs)
  {
  }

  class LexicalRanker {
    const m: Bm25
    const A: Alphabet

    constructor (m: Bm25, A: Alphabet)
      ensures this.m == m && this.A == A
    {
      this.m, this.A := m, A;
    }

    method ScoreOf(query: seq<string>, doc: seq<string>, docFreq: map<string, nat>, average: real,
                   ghost docs: seq<seq<string>>, n: nat)
      returns (score: Option<real>)
      requires |docs| > 0 && n == |docs| && doc in docs && average == AverageLength(docs)
      requires forall term :: Get(docFreq, term) == DocFreq(docs, term)
      ensures score == Score(m, query, doc, docs)
    {
      var freq := CountTerms(doc);
      score := Some(0.0);
      for i := 0 to |query|
        invariant score.Some? && score == Score(m, query[..i], doc, docs)
      {
        var term := query[i];
        SumNext(Weigher(m, doc, docs), query, i);
        assert Get(freq, term) == Freq(doc, term) && Get(docFreq, term) == DocFreq(docs, term);
        if Get(freq, term) != 0 {
          var here := Term(m, freq[term], docFreq[term], n, |doc|, average);
          if here.None? {
            ScoreStaysUndefined(m, query, i + 1, doc, docs);
            return None;
          }
          score := Some(score.value + here.value);
        }
      }
      assert query[..|query|] == query;
    }

    /** None is a division by zero. */
    method Rank(query: string, tools: seq<Tool>) returns (r: Option<seq<Tool>>)
      ensures var q, docs := Tokens(A, query), Documents(A, tools);
              if |q| == 0 || |tools| == 0 then r == Some([])
              else if !Defined(m, q, docs) then r == None
              else r == Some(Pick(tools, Ranked(Scores(m, q, docs))))
    {
      var terms := Tokenize(A, query);
      if |terms| == 0 || |tools| == 0 { return Some([]); }
      var docs := TokenizeAll(tools);
      var scored := ScoreAll(terms, docs);
      if scored.None? { return None; }
      r := Some(Pick(tools, Ranked(scored.value)));
    }

    /** The tools' tokens. */
    method TokenizeAll(tools: seq<Tool>) returns (docs: seq<seq<string>>)
      ensures docs == Documents(A, tools)
    {
      docs := [];
      for i := 0 to |tools|
        invariant |docs| == i
        invariant forall j | 0 <= j < i :: docs[j] == Tokens(A, tools[j].name + " " + tools[j].description)
      {
        var doc := Tokenize(A, tools[i].name + " " + tools[i].description);
        docs := docs + [doc];
      }
    }

    /** The scoring loop. */
    method ScoreAll(terms: seq<string>, docs: seq<seq<string>>) returns (r: Option<seq<real>>)
      requires |docs| > 0
      ensures r == if Defined(m, terms, docs) then Some(Scores(m, terms, docs)) else None
    {
      var docFreq := CountDocs(docs);
      var average := AverageLength(docs);
      ghost var score := Scorer(m, terms, docs);
      var scored: seq<real> := [];
      for i := 0 to |docs|
        invariant |scored| == i && AreScores(score, docs, scored)
      {
        var here := ScoreOf(terms, docs[i], docFreq, average, docs, |docs|);
        if here.None? {
          OneUndefined(m, terms, docs, i);
          return None;
        }
        NextScore(score, docs, scored, here.value);
        scored := scored + [here.value];
      }
      AllScored(m, terms, docs, scored);
      r := Some(scored);
    }
  }

  lemma {:induction false} ScoreStaysUndefined(m: Bm25, query: seq<string>, i: nat, doc: seq<string>,
                                               docs: seq<seq<string>>)
    requires |docs| > 0 && i <= |query| && Score(m, query[..i], doc, docs).None?
    ensures Score(m, query, doc, docs).None?
    decreases |query| - i
  {
    if i < |query| {
      assert query[..i + 1][..i] == query[..i];
      ScoreStaysUndefined(m, query, i + 1, doc, docs);
    } else {
      assert query[..i] == query;
    }
  }

  /** With sound parameters every score is defined, and the tools ranked are exactly those that share
      a token with the query, each once, by falling score with ties in the original order. */
  lemma RankIsExact(m: Bm25, query: seq<string>, docs: seq<seq<string>>)
    requires Sound(m) && |docs| > 0
    ensures Defined(m, query, docs)
    ensures var scores := Scores(m, query, docs);
            InOrder(scores, Ranked(scores)) &&
            forall i: nat :: i in Ranked(scores) <==> i < |docs| && SharesToken(query, docs[i])
  {
    forall i | 0 <= i < |docs|
      ensures Score(m, query, docs[i], docs).Some? &&
              (Score(m, query, docs[i], docs).value > 0.0 <==> SharesToken(query, docs[i]))
    {
      ScoreIsPositive(m, query, docs, i);
    }
    RankedIsExact(Scores(m, query, docs));
  }
}
