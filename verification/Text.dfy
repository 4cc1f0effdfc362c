/** The Python string operations the message layer is written in: `split()`, `join`,
    `partition` and `strip`, with the facts the codec needs about them. */
module Text {
  import opened Options

  /** `str.isspace` on one character; `\s` in a pattern is the same class. */
  predicate IsSpace(c: char) {
    var n := c as int;
    0x09 <= n <= 0x0D || 0x1C <= n <= 0x20 || n == 0x85 || n == 0xA0 || n == 0x1680 ||
    0x2000 <= n <= 0x200A || n == 0x2028 || n == 0x2029 || n == 0x202F || n == 0x205F || n == 0x3000
  }

  /** White space, code point by code point. */
  lemma WhiteSpaceIs(c: char)
    ensures IsSpace(c) <==>
            c as int in {9, 10, 11, 12, 13, 28, 29, 30, 31, 32, 133, 160, 5760, 8192, 8193, 8194, 8195, 8196, 8197,
                         8198, 8199, 8200, 8201, 8202, 8232, 8233, 8239, 8287, 12288}
  {
  }

  predicate NotSpace(c: char) { !IsSpace(c) }

  /** A header token: non-empty and free of whitespace. */
  predicate IsToken(s: string) {
    |s| > 0 && forall i | 0 <= i < |s| :: !IsSpace(s[i])
  }

  /** The end of the longest run of characters satisfying `f` that starts at `i`. */
  function Span(t: string, i: nat, f: char -> bool): (j: nat)
    requires i <= |t|
    ensures i <= j <= |t|
    ensures forall k | i <= k < j :: f(t[k])
    ensures j < |t| ==> !f(t[j])
    decreases |t| - i
  {
    if i < |t| && f(t[i]) then Span(t, i + 1, f) else i
  }

  lemma {:induction false} SpanIs(t: string, i: nat, f: char -> bool, j: nat)
    requires i <= j <= |t|
    requires forall k | i <= k < j :: f(t[k])
    requires j < |t| ==> !f(t[j])
    ensures Span(t, i, f) == j
    decreases j - i
  {
    if i < j { SpanIs(t, i + 1, f, j); }
  }

  /** How much a pattern consumes at the start of `t`; 0 when it does not match there. */
  function Hit(t: string, length: string -> Option<nat>): (n: nat)
    ensures n <= |t|
  {
    if length(t).Some? && length(t).value <= |t| then length(t).value else 0
  }

  /** `pattern.sub(edit, t)` for a pattern that never matches the empty string: matches are
      taken leftmost first, and the search resumes after each. */
  function Sub(t: string, length: string -> Option<nat>, edit: string -> string): string
    decreases |t|
  {
    if t == "" then ""
    else if Hit(t, length) > 0 then edit(t[..Hit(t, length)]) + Sub(t[Hit(t, length)..], length, edit)
    else [t[0]] + Sub(t[1..], length, edit)
  }

  /** `s.split()` */
  function Split(s: string): (tokens: seq<string>)
    ensures forall i | 0 <= i < |tokens| :: IsToken(tokens[i])
    decreases |s|
  {
    if s == "" then []
    else if IsSpace(s[0]) then Split(s[1..])
    else
      var k := Span(s, 0, NotSpace);
      [s[..k]] + Split(s[k..])
  }

  /** `" ".join(parts)` */
  function JoinWords(parts: seq<string>): string {
    if |parts| == 0 then ""
    else if |parts| == 1 then parts[0]
    else parts[0] + " " + JoinWords(parts[1..])
  }

  predicate At(s: string, sep: string, i: int) {
    0 <= i && i + |sep| <= |s| && s[i..i + |sep|] == sep
  }

  /** Where `s.partition(sep)` cuts: the first occurrence, or -1. */
  function Find(s: string, sep: string): (r: int)
    ensures r == -1 || (At(s, sep, r) && forall i | 0 <= i < r :: !At(s, sep, i))
    ensures r == -1 ==> forall i :: !At(s, sep, i)
  {
    FindFrom(s, sep, 0)
  }

  function FindFrom(s: string, sep: string, from: nat): (r: int)
    requires from <= |s|
    ensures r == -1 || (from <= r && At(s, sep, r) && forall i | from <= i < r :: !At(s, sep, i))
    ensures r == -1 ==> forall i | from <= i :: !At(s, sep, i)
    decreases |s| - from
  {
    if At(s, sep, from) then from
    else if from == |s| then -1
    else FindFrom(s, sep, from + 1)
  }

  /** `s.strip()` */
  function Strip(s: string): (r: string)
    ensures Trimmed(r)
    ensures Trimmed(s) ==> r == s
    ensures forall c :: c in r ==> c in s
    decreases |s|
  {
    if s == "" then ""
    else if IsSpace(s[0]) then Strip(s[1..])
    else if IsSpace(s[|s| - 1]) then Strip(s[..|s| - 1])
    else s
  }

  predicate Trimmed(s: string) {
    s == "" || (!IsSpace(s[0]) && !IsSpace(s[|s| - 1]))
  }

  /** A first word, then whatever follows a space. */
  lemma SplitFirst(p: string, rest: string)
    requires IsToken(p)
    ensures Split(p + " " + rest) == [p] + Split(rest)
  {
    var s := p + " " + rest;
    var k := Span(s, 0, NotSpace);
    assert s[|p|] == ' ';
    assert forall i | 0 <= i < |p| :: s[i] == p[i];
    assert k == |p|;
    assert s[..k] == p;
    assert s[k..] == " " + rest;
    assert s[k..][1..] == rest;
  }

  /** Splitting a joined header gives back its tokens. */
  lemma {:induction false} SplitJoin(parts: seq<string>)
    requires forall i | 0 <= i < |parts| :: IsToken(parts[i])
    ensures Split(JoinWords(parts)) == parts
  {
    if |parts| == 1 {
      var p := parts[0];
      var k := Span(p, 0, NotSpace);
      assert k == |p| && p[..k] == p && p[k..] == "";
    } else if |parts| > 1 {
      SplitFirst(parts[0], JoinWords(parts[1..]));
      SplitJoin(parts[1..]);
    }
  }

  lemma {:induction false} JoinStarts(parts: seq<string>)
    requires |parts| > 0
    requires forall i | 0 <= i < |parts| :: IsToken(parts[i])
    ensures IsToken(parts[0]) && |JoinWords(parts)| > 0
    ensures JoinWords(parts)[0] == parts[0][0]
    ensures parts[0] != "|" ==> parts[0][0] != '|' || (|JoinWords(parts)| > 1 && !IsSpace(JoinWords(parts)[1]))
  {
  }

  /** " | " does not stand at `i` when one of its characters is missing there. */
  lemma NotAtBar(s: string, i: int)
    requires 0 <= i < |s|
    requires s[i] != ' ' || (i + 1 < |s| && (s[i + 1] != '|' || (i + 2 < |s| && !IsSpace(s[i + 2]))))
    ensures !At(s, " | ", i)
  {
    if i + 3 <= |s| {
      assert s[i..i + 3][0] == s[i] && s[i..i + 3][1] == s[i + 1] && s[i..i + 3][2] == s[i + 2];
    }
  }

  lemma AtShift(prefix: string, t: string, sep: string, i: nat)
    ensures At(prefix + t, sep, |prefix| + i) <==> At(t, sep, i)
  {
    if i + |sep| <= |t| {
      assert (prefix + t)[|prefix| + i..|prefix| + i + |sep|] == t[i..i + |sep|];
    }
  }

  /** A joined header contains no " | ", nor the start of one, unless some later token is "|". */
  lemma {:induction false} NoBarInHeader(parts: seq<string>, tail: string, i: int)
    requires |parts| > 0
    requires forall j | 0 <= j < |parts| :: IsToken(parts[j])
    requires forall j | 0 < j < |parts| :: parts[j] != "|"
    requires 0 <= i < |JoinWords(parts)|
    ensures !At(JoinWords(parts) + tail, " | ", i)
  {
    var s := JoinWords(parts) + tail;
    var p := parts[0];
    if i < |p| {
      assert s[i] == p[i];
      NotAtBar(s, i);
    } else {
      var rest := JoinWords(parts[1..]);
      var shifted := rest + tail;
      JoinStarts(parts[1..]);
      assert s == p + " " + shifted;
      assert forall k | 0 <= k < |shifted| :: s[|p| + 1 + k] == shifted[k];
      if i == |p| {
        assert s[i + 1] == rest[0];
        NotAtBar(s, i);
      } else {
        NoBarInHeader(parts[1..], tail, i - |p| - 1);
        AtShift(p + " ", shifted, " | ", i - |p| - 1);
      }
    }
  }

  // ---------- words ----------

  lemma OneWord(t: string)
    requires IsToken(t)
    ensures Split(t) == [t]
  {
    SpanIs(t, 0, NotSpace, |t|);
    assert t[..|t|] == t && t[|t|..] == "";
  }

  /** White space separates words and belongs to none: with `OneWord` and the empty text, this is all there
      is to splitting. */
  lemma {:induction false} SplitAtSpace(a: string, c: char, b: string)
    requires IsSpace(c)
    ensures Split(a + [c] + b) == Split(a) + Split(b)
    decreases |a|
  {
    var s := a + [c] + b;
    if a == "" {
      assert s[1..] == b;
    } else if IsSpace(a[0]) {
      assert s[1..] == a[1..] + [c] + b;
      SplitAtSpace(a[1..], c, b);
    } else {
      var k := Span(a, 0, NotSpace);
      assert forall i | 0 <= i < |a| :: s[i] == a[i];
      assert s[|a|] == c;
      SpanIs(s, 0, NotSpace, k);
      assert s[..k] == a[..k] && s[k..] == a[k..] + [c] + b;
      SplitAtSpace(a[k..], c, b);
      assert Split(s) == [a[..k]] + Split(a[k..] + [c] + b) && Split(a) == [a[..k]] + Split(a[k..]);
    }
  }

  /** Stripping takes white space off both ends, and no word. */
  lemma {:induction false} StripIsMiddle(s: string) returns (i: nat, j: nat)
    ensures i <= j <= |s| && Strip(s) == s[i..j]
    ensures (forall k | 0 <= k < i :: IsSpace(s[k])) && forall k | j <= k < |s| :: IsSpace(s[k])
    decreases |s|
  {
    if s == "" {
      i, j := 0, 0;
    } else if IsSpace(s[0]) {
      i, j := StripIsMiddle(s[1..]);
      assert s[1..][i..j] == s[i + 1..j + 1] && forall k | 0 <= k < |s| - 1 :: s[1..][k] == s[k + 1];
      i, j := i + 1, j + 1;
    } else if IsSpace(s[|s| - 1]) {
      i, j := StripIsMiddle(s[..|s| - 1]);
      assert s[..|s| - 1][i..j] == s[i..j] && forall k | 0 <= k < |s| - 1 :: s[..|s| - 1][k] == s[k];
    } else {
      i, j := 0, |s|;
    }
  }

  lemma {:induction false} StripKeepsWords(s: string)
    ensures Split(Strip(s)) == Split(s)
    decreases |s|
  {
    if s != "" {
      if IsSpace(s[0]) {
        StripKeepsWords(s[1..]);
      } else if IsSpace(s[|s| - 1]) {
        var front := s[..|s| - 1];
        StripKeepsWords(front);
        assert s == front + [s[|s| - 1]] + "";
        SplitAtSpace(front, s[|s| - 1], "");
      }
    }
  }
}
