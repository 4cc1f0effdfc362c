/** `frame_untrusted`: cleaned text inside a boundary tag that the text cannot forge. */
module Frame {
  import opened Options
  import opened Text
  import opened Sanitizer

  const OPEN: char := '\U{2039}'   // the look-alike that replaces '<'
  const CLOSE: char := '\U{203A}'  // the look-alike that replaces '>'

  predicate IsSlugChar(c: char) { 'a' <= c <= 'z' || '0' <= c <= '9' || c == '-' }

  /** `[a-z][a-z0-9-]{0,63}` */
  predicate LegalLabel(tag: string) {
    1 <= |tag| <= 64 && 'a' <= tag[0] <= 'z' && forall i | 0 <= i < |tag| :: IsSlugChar(tag[i])
  }

  /** `c` matches the tag character `l` when case is ignored, with the four non-ASCII letters
      that fold to ASCII ones. */
  predicate SameLetter(c: char, l: char) {
    c == l || ('a' <= l <= 'z' && 'A' <= c <= 'Z' && c as int + 32 == l as int) ||
    (l == 'i' && (c == '\U{130}' || c == '\U{131}')) ||
    (l == 's' && c == '\U{17F}') || (l == 'k' && c == '\U{212A}')
  }

  predicate LabelAt(t: string, tag: string, i: nat) {
    i + |tag| <= |t| && forall k | 0 <= k < |tag| :: SameLetter(t[i + k], tag[k])
  }

  /** `w` is `<`, blanks up to `p`, an optional slash up to `q`, blanks up to `r`, the tag,
      blanks, `>`. */
  predicate IsTagWith(w: string, tag: string, p: nat, q: nat, r: nat) {
    1 <= p <= q <= r && r + |tag| < |w| &&
    w[0] == '<' && All(w, 1, p, IsSpace) && (q == p || (q == p + 1 && w[p] == '/')) && All(w, q, r, IsSpace) &&
    LabelAt(w, tag, r) && All(w, r + |tag|, |w| - 1, IsSpace) && w[|w| - 1] == '>'
  }

  ghost predicate IsTag(w: string, tag: string) {
    exists p: nat, q: nat, r: nat :: IsTagWith(w, tag, p, q, r)
  }

  /** How much of `t` the tag pattern consumes at its start. */
  function TagLength(t: string, tag: string): (n: Option<nat>)
    ensures n.Some? ==> 0 < n.value <= |t|
  {
    if t == "" || t[0] != '<' then None
    else
      var p := Span(t, 1, IsSpace);
      var q := if p < |t| && t[p] == '/' then p + 1 else p;
      var r := Span(t, q, IsSpace);
      if !LabelAt(t, tag, r) then None
      else
        var s := Span(t, r + |tag|, IsSpace);
        if s < |t| && t[s] == '>' then Some(s + 1) else None
  }

  /** `m.group(0).replace("<", OPEN).replace(">", CLOSE)` */
  function Guillemets(t: string): (r: string)
    ensures |r| == |t|
    ensures forall i | 0 <= i < |t| :: r[i] == (if t[i] == '<' then OPEN else if t[i] == '>' then CLOSE else t[i])
  {
    if t == "" then ""
    else [if t[0] == '<' then OPEN else if t[0] == '>' then CLOSE else t[0]] + Guillemets(t[1..])
  }

  /** `tag.sub(...)` */
  function Defang(t: string, tag: string): string {
    Sub(t, TagMatcher(tag), Guillemets)
  }

  function TagMatcher(tag: string): string -> Option<nat> {
    s => TagLength(s, tag)
  }

  function Framed(body: string, tag: string): string {
    "<" + tag + ">\n" + body + "\n</" + tag + ">"
  }

  /** None stands for the ValueError a tag that is no slug raises. */
  function FrameUntrusted(text: string, tag: string): Option<string> {
    if !LegalLabel(tag) then None
    else Some(Framed(Defang(Sanitize(text), tag), tag))
  }

  // ---------- the scanner against the grammar ----------

  /** What the scanner goes through is the decomposition of a tag. */
  lemma ScannedParts(t: string, tag: string, m: nat, p: nat, q: nat, r: nat)
    requires 1 <= p <= q <= r && r + |tag| < m <= |t| && t[0] == '<' && t[m - 1] == '>'
    requires All(t, 1, p, IsSpace) && All(t, q, r, IsSpace) && All(t, r + |tag|, m - 1, IsSpace)
    requires LabelAt(t, tag, r) && (q == p || (q == p + 1 && t[p] == '/'))
    ensures IsTagWith(t[..m], tag, p, q, r)
  {
    var w := t[..m];
    assert forall i | 0 <= i < m :: w[i] == t[i];
  }

  lemma TagLengthIsSound(t: string, tag: string)
    requires TagLength(t, tag).Some?
    ensures IsTag(t[..TagLength(t, tag).value], tag)
  {
    var m := TagLength(t, tag).value;
    var p := Span(t, 1, IsSpace);
    var q := if p < |t| && t[p] == '/' then p + 1 else p;
    var r := Span(t, q, IsSpace);
    ScannedParts(t, tag, m, p, q, r);
    assert IsTagWith(t[..m], tag, p, q, r);
  }

  /** The decomposition of a tag, read off the text the tag starts. */
  lemma TagParts(t: string, tag: string, m: nat, p: nat, q: nat, r: nat)
    requires m <= |t| && IsTagWith(t[..m], tag, p, q, r)
    ensures t[0] == '<' && t[m - 1] == '>' && r + |tag| <= m - 1
    ensures All(t, 1, p, IsSpace) && All(t, q, r, IsSpace) && All(t, r + |tag|, m - 1, IsSpace)
    ensures LabelAt(t, tag, r)
    ensures q == p || (q == p + 1 && t[p] == '/')
  {
    var w := t[..m];
    assert forall i | 0 <= i < m :: w[i] == t[i];
  }

  /** The scanner gets to the label, with or without a slash. */
  lemma LabelStarts(t: string, tag: string, m: nat, p: nat, q: nat, r: nat)
    requires LegalLabel(tag) && m <= |t| && IsTagWith(t[..m], tag, p, q, r)
    ensures var k := Span(t, 1, IsSpace);
            Span(t, if k < |t| && t[k] == '/' then k + 1 else k, IsSpace) == r
  {
    TagParts(t, tag, m, p, q, r);
    assert SameLetter(t[r + 0], tag[0]);
    assert !IsSpace(t[r]) && t[r] != '/';
    if q == p {
      SpanIs(t, 1, IsSpace, r);
      SpanIs(t, r, IsSpace, r);
    } else {
      SpanIs(t, 1, IsSpace, p);
      SpanIs(t, q, IsSpace, r);
    }
  }

  lemma TagLengthFrom(t: string, tag: string, m: nat, p: nat, q: nat, r: nat)
    requires LegalLabel(tag) && m <= |t| && IsTagWith(t[..m], tag, p, q, r)
    ensures TagLength(t, tag) == Some(m)
  {
    TagParts(t, tag, m, p, q, r);
    LabelStarts(t, tag, m, p, q, r);
    SpanIs(t, r + |tag|, IsSpace, m - 1);
  }

  lemma TagLengthIsComplete(t: string, tag: string, m: nat)
    requires LegalLabel(tag) && m <= |t| && IsTag(t[..m], tag)
    ensures TagLength(t, tag) == Some(m)
  {
    var p: nat, q: nat, r: nat :| IsTagWith(t[..m], tag, p, q, r);
    TagLengthFrom(t, tag, m, p, q, r);
  }

  predicate Ordinary(c: char) { c != '<' && c != '>' && c != OPEN && c != CLOSE }

  lemma TagCharacters(w: string, tag: string, p: nat, q: nat, r: nat, i: nat)
    requires LegalLabel(tag) && IsTagWith(w, tag, p, q, r) && 0 < i < |w| - 1
    ensures Ordinary(w[i])
  {
    if r <= i < r + |tag| {
      assert SameLetter(w[r + (i - r)], tag[i - r]) && IsSlugChar(tag[i - r]);
    } else {
      assert IsSpace(w[i]) || w[i] == '/';
    }
  }

  /** A tag has its angle brackets at its two ends and nowhere else, and holds no look-alike. */
  lemma TagShape(w: string, tag: string)
    requires LegalLabel(tag) && IsTag(w, tag)
    ensures |w| >= 2 && w[0] == '<' && w[|w| - 1] == '>' && All(w, 1, |w| - 1, Ordinary)
  {
    var p: nat, q: nat, r: nat :| IsTagWith(w, tag, p, q, r);
    forall i: nat | 0 < i < |w| - 1 ensures Ordinary(w[i]) {
      TagCharacters(w, tag, p, q, r, i);
    }
  }

  // ---------- defanging ----------

  /** What defanging may make of one character. */
  predicate Defanged(c: char, d: char) {
    d == c || (c == '<' && d == OPEN) || (c == '>' && d == CLOSE)
  }

  predicate AllDefanged(t: string, d: string) {
    |t| == |d| && forall i | 0 <= i < |t| :: Defanged(t[i], d[i])
  }

  lemma DefangedJoin(t: string, n: nat, d: string, rest: string)
    requires n <= |t| && AllDefanged(t[..n], d) && AllDefanged(t[n..], rest)
    ensures AllDefanged(t, d + rest)
  {
    forall i | 0 <= i < |t| ensures Defanged(t[i], (d + rest)[i]) {
      if i < n { assert t[..n][i] == t[i]; } else { assert t[n..][i - n] == t[i]; }
    }
  }

  /** Defanging keeps every character but the brackets of forged tags. */
  lemma {:induction false} DefangPointwise(t: string, length: string -> Option<nat>)
    ensures AllDefanged(t, Sub(t, length, Guillemets))
    decreases |t|
  {
    if t != "" {
      var n := if Hit(t, length) > 0 then Hit(t, length) else 1;
      DefangPointwise(t[n..], length);
      DefangedJoin(t, n, if Hit(t, length) > 0 then Guillemets(t[..n]) else [t[0]], Sub(t[n..], length, Guillemets));
    }
  }

  /** A tag read in the defanged text was a tag of the text itself. */
  lemma SameTag(t: string, d: string, tag: string)
    requires LegalLabel(tag) && AllDefanged(t, d) && TagLength(d, tag).Some?
    ensures TagLength(t, tag) == TagLength(d, tag)
  {
    var m := TagLength(d, tag).value;
    TagLengthIsSound(d, tag);
    TagShape(d[..m], tag);
    forall k | 0 <= k < m ensures d[k] == t[k] {
      assert d[..m][k] == d[k];
      assert 0 < k < m - 1 ==> Ordinary(d[..m][k]);
    }
    assert d[..m] == t[..m];
    TagLengthIsComplete(t, tag, m);
  }

  /** What defanging needs of the pattern: matches start with a bracket, and replacing brackets
      makes none. */
  ghost predicate Stable(length: string -> Option<nat>) {
    (forall t {:trigger length(t)} :: length(t).Some? ==> 0 < length(t).value <= |t| && t[0] == '<') &&
    (forall t, d {:trigger AllDefanged(t, d)} :: length(d).Some? && AllDefanged(t, d) ==> length(t) == length(d))
  }

  lemma TagsAreStable(tag: string)
    requires LegalLabel(tag)
    ensures Stable(TagMatcher(tag))
  {
    forall t, d | TagMatcher(tag)(d).Some? && AllDefanged(t, d) ensures TagMatcher(tag)(t) == TagMatcher(tag)(d) {
      SameTag(t, d, tag);
    }
  }

  lemma BracketGone(t: string, length: string -> Option<nat>, i: nat)
    requires t != "" && i < Hit(t, length)
    ensures i < |Sub(t, length, Guillemets)| && Sub(t, length, Guillemets)[i] != '<'
  {
    assert Guillemets(t[..Hit(t, length)])[i] != '<';
  }

  lemma LengthIsKept(t: string, length: string -> Option<nat>)
    ensures |Sub(t, length, Guillemets)| == |t|
  {
    DefangPointwise(t, length);
  }

  /** What comes after the first match, or the first character, is what becomes of the rest. */
  lemma RestFollows(t: string, length: string -> Option<nat>, edit: string -> string, n: nat, i: nat)
    requires t != "" && n == (if Hit(t, length) > 0 then Hit(t, length) else 1) && n <= i < |t|
    requires |edit(t[..n])| == n && |Sub(t[n..], length, edit)| == |t| - n
    ensures |Sub(t, length, edit)| == |t| && Sub(t, length, edit)[i] == Sub(t[n..], length, edit)[i - n]
  {
  }

  /** Where a bracket is left, the scan found no match. */
  lemma {:induction false} KeptBracket(t: string, length: string -> Option<nat>, i: nat)
    requires i < |t| && |Sub(t, length, Guillemets)| == |t| && Sub(t, length, Guillemets)[i] == '<'
    ensures Hit(t[i..], length) == 0
    decreases |t|
  {
    if i < Hit(t, length) {
      BracketGone(t, length, i);
    } else if i == 0 {
      assert t[0..] == t;
    } else {
      var n := if Hit(t, length) > 0 then Hit(t, length) else 1;
      LengthIsKept(t[n..], length);
      RestFollows(t, length, Guillemets, n, i);
      KeptBracket(t[n..], length, i - n);
      assert t[n..][i - n..] == t[i..];
    }
  }

  lemma StableMatch(t: string, d: string, length: string -> Option<nat>)
    requires Stable(length) && AllDefanged(t, d) && length(d).Some?
    ensures Hit(t, length) > 0 && |d| > 0 && d[0] == '<'
  {
  }

  /** No match is left, and replacing brackets made none. */
  lemma DefangLeavesNone(t: string, length: string -> Option<nat>, i: nat)
    requires Stable(length) && |Sub(t, length, Guillemets)| == |t| && i <= |t|
    ensures length(Sub(t, length, Guillemets)[i..]).None?
  {
    var d := Sub(t, length, Guillemets);
    DefangPointwise(t, length);
    assert AllDefanged(t[i..], d[i..]);
    if length(d[i..]).Some? {
      StableMatch(t[i..], d[i..], length);
      KeptBracket(t, length, i);
    }
  }

  /** Text without a tag is framed as it stands. */
  lemma HarmlessTextIsKept(t: string, tag: string)
    requires forall k | 0 <= k < |t| :: TagLength(t[k..], tag).None?
    ensures Defang(t, tag) == t
  {
    forall k | 0 <= k < |t| ensures Hit(t[k..] + "", TagMatcher(tag)) == 0 {
      assert t[k..] + "" == t[k..];
    }
    SubSkips(t, "", TagMatcher(tag), Guillemets);
    assert t + "" == t;
  }

  // ---------- the frame ----------

  lemma OpeningTag(t: string, tag: string)
    requires LegalLabel(tag) && "<" + tag + ">" <= t
    ensures TagLength(t, tag) == Some(|tag| + 2)
  {
    var w := "<" + tag + ">";
    assert forall k | 0 <= k < |w| :: t[k] == w[k];
    SpanIs(t, 1, IsSpace, 1);
    SpanIs(t, 1 + |tag|, IsSpace, 1 + |tag|);
  }

  /** The label counts in any case. */
  lemma AnyCaseIsATag(word: string, tag: string)
    requires LegalLabel(tag) && |word| == |tag|
    requires forall k | 0 <= k < |tag| ::
               word[k] == tag[k] || ('a' <= tag[k] <= 'z' && word[k] as int == tag[k] as int - 32)
    ensures IsTag("<" + word + ">", tag) && IsTag("</" + word + ">", tag)
  {
    var open, shut := "<" + word + ">", "</" + word + ">";
    assert forall k | 0 <= k < |tag| :: open[1 + k] == word[k] && shut[2 + k] == word[k];
    assert IsTagWith(open, tag, 1, 1, 1);
    assert IsTagWith(shut, tag, 1, 2, 2);
  }

  lemma ClosingTag(t: string, tag: string)
    requires LegalLabel(tag) && t == "</" + tag + ">"
    ensures TagLength(t, tag) == Some(|tag| + 3)
  {
    assert t[1] == '/' && forall k | 0 <= k < |tag| :: t[2 + k] == tag[k];
    SpanIs(t, 1, IsSpace, 1);
    SpanIs(t, 2, IsSpace, 2);
    SpanIs(t, 2 + |tag|, IsSpace, 2 + |tag|);
  }

  /** What is where in a frame. */
  predicate Layout(f: string, body: string, tag: string) {
    var b := |tag| + 3;
    var e := b + |body| + 1;
    |f| == e + |tag| + 3 && "<" + tag + ">" <= f && f[e..] == "</" + tag + ">" &&
    f[b - 1] == '\n' && f[e - 1] == '\n' && f[e] == '<' &&
    (forall k | 0 <= k < |body| :: f[b + k] == body[k]) &&
    (forall i | 0 < i < b :: f[i] != '<') && (forall i | e < i < |f| :: f[i] != '<')
  }

  lemma FrameLayout(body: string, tag: string)
    requires LegalLabel(tag)
    ensures Layout(Framed(body, tag), body, tag)
  {
  }

  lemma NoBracketNoTag(t: string, tag: string)
    requires t == "" || t[0] != '<'
    ensures TagLength(t, tag).None?
  {
  }

  /** Where tags start in a frame around a body without tags. */
  lemma FrameTagStarts(f: string, body: string, tag: string, i: nat)
    requires LegalLabel(tag) && Layout(f, body, tag) && i <= |f|
    requires forall k: nat | k <= |body| :: TagLength(body[k..], tag).None?
    requires i != 0 && i != |tag| + 4 + |body|
    ensures TagLength(f[i..], tag).None?
  {
    if |tag| + 3 <= i < |tag| + 3 + |body| {
      if TagLength(f[i..], tag).Some? { BodyTag(f, body, tag, |tag| + 3, i); }
    } else {
      assert i < |f| ==> f[i..][0] == f[i];
      NoBracketNoTag(f[i..], tag);
    }
  }

  /** A tag ends before the next line break that a bracket follows. */
  lemma TagEndsBefore(g: string, tag: string, e: nat)
    requires LegalLabel(tag) && TagLength(g, tag).Some?
    requires 0 < e < |g| - 1 && g[e] == '\n' && g[e + 1] == '<'
    ensures TagLength(g, tag).value <= e
  {
    var w := g[..TagLength(g, tag).value];
    TagLengthIsSound(g, tag);
    TagShape(w, tag);
    forall k | 0 < k < |w| - 1 ensures Ordinary(g[k]) { assert w[k] == g[k]; }
    assert g[|w| - 1] == w[|w| - 1];
  }

  /** A tag that starts inside the body would end there. */
  lemma BodyTag(f: string, body: string, tag: string, b: nat, i: nat)
    requires LegalLabel(tag) && b <= i < b + |body| && b + |body| + 1 < |f|
    requires forall k | 0 <= k < |body| :: f[b + k] == body[k]
    requires f[b + |body|] == '\n' && f[b + |body| + 1] == '<'
    requires TagLength(f[i..], tag).Some?
    ensures TagLength(body[i - b..], tag).Some?
  {
    var g, h := f[i..], body[i - b..];
    var m := TagLength(g, tag).value;
    TagEndsBefore(g, tag, |h|);
    forall k | 0 <= k < m ensures g[k] == h[k] {
      assert f[b + (i - b + k)] == body[i - b + k];
    }
    assert g[..m] == h[..m];
    TagLengthIsSound(g, tag);
    TagLengthIsComplete(h, tag, m);
  }

  /** A frame is made for exactly the legal labels, and it holds the whole cleaned text, in which nothing
      but angle brackets changed, between its tags. */
  lemma FrameHoldsTheText(text: string, tag: string) returns (body: string)
    ensures FrameUntrusted(text, tag).Some? <==>
              1 <= |tag| <= 64 && 'a' <= tag[0] <= 'z' &&
              forall i | 0 <= i < |tag| :: 'a' <= tag[i] <= 'z' || '0' <= tag[i] <= '9' || tag[i] == '-'
    ensures FrameUntrusted(text, tag).Some? ==>
              FrameUntrusted(text, tag).value == "<" + tag + ">\n" + body + "\n</" + tag + ">"
    ensures AllDefanged(Sanitize(text), body)
  {
    body := Defang(Sanitize(text), tag);
    DefangPointwise(Sanitize(text), TagMatcher(tag));
  }

  /** For every text and every legal label, the framed result holds exactly two tags: the
      opening one at its start and the closing one at its end. */
  lemma FrameCannotBeForged(text: string, tag: string, i: nat, j: nat)
    requires LegalLabel(tag)
    requires FrameUntrusted(text, tag).Some? && i <= j <= |FrameUntrusted(text, tag).value|
    ensures var f := FrameUntrusted(text, tag).value;
            IsTag(f[i..j], tag) <==>
            (i == 0 && j == |tag| + 2) || (i == |f| - |tag| - 3 && j == |f|)
  {
    var clean := Sanitize(text);
    var body := Defang(clean, tag);
    DefangPointwise(clean, TagMatcher(tag));
    TagsAreStable(tag);
    forall k: nat | k <= |body| ensures TagLength(body[k..], tag).None? {
      DefangLeavesNone(clean, TagMatcher(tag), k);
      assert TagMatcher(tag)(body[k..]).None?;
    }
    FrameLayout(body, tag);
    TwoTags(FrameUntrusted(text, tag).value, body, tag, i, j);
  }

  lemma TwoTags(f: string, body: string, tag: string, i: nat, j: nat)
    requires LegalLabel(tag) && Layout(f, body, tag) && i <= j <= |f|
    requires forall k: nat | k <= |body| :: TagLength(body[k..], tag).None?
    ensures IsTag(f[i..j], tag) <==> (i == 0 && j == |tag| + 2) || (i == |f| - |tag| - 3 && j == |f|)
  {
    TagIffLength(f, tag, i, j);
    TagOfFrame(f, body, tag, i);
  }

  lemma TagOfFrame(f: string, body: string, tag: string, i: nat)
    requires LegalLabel(tag) && Layout(f, body, tag) && i <= |f|
    requires forall k: nat | k <= |body| :: TagLength(body[k..], tag).None?
    ensures TagLength(f[i..], tag) ==
              if i == 0 then Some(|tag| + 2) else if i == |f| - |tag| - 3 then Some(|tag| + 3) else None
  {
    if i == 0 {
      assert f[0..] == f;
      OpeningTag(f, tag);
    } else if i == |f| - |tag| - 3 {
      ClosingTag(f[i..], tag);
    } else {
      FrameTagStarts(f, body, tag, i);
    }
  }

  lemma TagIffLength(f: string, tag: string, i: nat, j: nat)
    requires LegalLabel(tag) && i <= j <= |f|
    ensures IsTag(f[i..j], tag) <==> TagLength(f[i..], tag) == Some(j - i)
  {
    assert f[i..][..j - i] == f[i..j];
    if IsTag(f[i..j], tag) {
      TagLengthIsComplete(f[i..], tag, j - i);
    }
    if TagLength(f[i..], tag) == Some(j - i) {
      TagLengthIsSound(f[i..], tag);
    }
  }
}
