/** `sanitize`: terminal escapes, control characters and invisible format characters are
    removed from text another principal wrote. */
module Sanitizer {
  import opened Options
  import opened Text

  const ESC: char := '\U{1B}'
  const BEL: char := '\U{07}'
  const MARKER: string := " ...[truncated]"

  /** Control, bidi and invisible code points; tab, newline, ZWNJ and ZWJ are not among them. */
  predicate Stripped(c: char) {
    var n := c as int;
    n < 0x09 || n == 0x0B || n == 0x0C || 0x0E <= n < 0x20 || 0x7F <= n < 0xA0 ||
    0x202A <= n < 0x202F || 0x2066 <= n < 0x206A ||
    n == 0x200B || n == 0x200E || n == 0x200F || n == 0xAD || n == 0x180E || n == 0xFEFF ||
    0x2060 <= n < 0x2065 || 0xE0000 <= n < 0xE0080
  }

  // ---------- newline normalisation ----------

  /** `text.replace("\r\n", "\n")` */
  function ReplaceCrLf(t: string): string {
    if t == "" then ""
    else if |t| > 1 && t[0] == '\r' && t[1] == '\n' then "\n" + ReplaceCrLf(t[2..])
    else [t[0]] + ReplaceCrLf(t[1..])
  }

  /** `text.replace("\r", "\n")` */
  function ReplaceCr(t: string): string {
    if t == "" then "" else [if t[0] == '\r' then '\n' else t[0]] + ReplaceCr(t[1..])
  }

  function Normalize(t: string): string {
    ReplaceCr(ReplaceCrLf(t))
  }

  // ---------- escape sequences ----------

  predicate IsStringIntroducer(c: char) { c == 'P' || c == 'X' || c == '^' || c == '_' }
  predicate IsParameter(c: char) { '0' <= c <= '?' }
  predicate IsIntermediate(c: char) { ' ' <= c <= '/' }
  predicate IsFinal(c: char) { '@' <= c <= '~' }
  predicate IsPayload(c: char) { c != ESC && c != BEL }

  /** The byte ranges of section 5.4 of ECMA-48, and what introduces and ends control strings. */
  lemma ByteRanges(c: char)
    ensures IsParameter(c) <==> 0x30 <= c as int <= 0x3F
    ensures IsIntermediate(c) <==> 0x20 <= c as int <= 0x2F
    ensures IsFinal(c) <==> 0x40 <= c as int <= 0x7E
    ensures IsStringIntroducer(c) <==> c as int in {0x50, 0x58, 0x5E, 0x5F}
    ensures IsPayload(c) <==> c as int != 0x1B && c as int != 0x07
    ensures IsTerminator([c]) <==> c as int == 0x07
  {
  }

  predicate All(w: string, lo: nat, hi: nat, f: char -> bool) {
    hi <= |w| && forall k | lo <= k < hi :: f(w[k])
  }

  predicate IsTerminator(w: string) { w == [BEL] || w == [ESC, '\\'] }

  /** DCS, SOS, PM and APC: the payload runs to ST or BEL, which may be missing. */
  predicate IsControlString(w: string) {
    |w| >= 2 && w[0] == ESC && IsStringIntroducer(w[1]) &&
    (All(w, 2, |w|, IsPayload) || EndsInTerminator(w))
  }

  predicate EndsInTerminator(w: string) {
    exists p | 2 <= p < |w| :: All(w, 2, p, IsPayload) && IsTerminator(w[p..])
  }

  /** A control sequence in the format of section 5.4 of ECMA-48: CSI, parameter bytes,
      intermediate bytes, one final byte. */
  predicate IsControlSequence(w: string) {
    |w| >= 3 && w[0] == ESC && w[1] == '[' && IsFinal(w[|w| - 1]) &&
    exists p | 2 <= p < |w| :: All(w, 2, p, IsParameter) && All(w, p, |w| - 1, IsIntermediate)
  }

  predicate IsOsc(w: string) {
    |w| >= 3 && w[0] == ESC && w[1] == ']' && EndsInTerminator(w)
  }

  predicate IsTwoChar(w: string) {
    |w| == 2 && w[0] == ESC && ('@' <= w[1] <= 'Z' || '\\' <= w[1] <= '_')
  }

  predicate IsEscape(w: string) {
    IsControlString(w) || IsControlSequence(w) || IsOsc(w) || IsTwoChar(w)
  }

  /** The length of the terminator that stands at `k`, 0 when there is none. */
  function TerminatorLength(t: string, k: nat): (n: nat)
    requires k <= |t|
    ensures k + n <= |t|
  {
    if k < |t| && t[k] == BEL then 1
    else if k + 1 < |t| && t[k] == ESC && t[k + 1] == '\\' then 2
    else 0
  }

  /** How many characters the escape pattern consumes at the start of `t`, alternative by
      alternative; None when no alternative matches. */
  function EscapeLength(t: string): (n: Option<nat>)
    ensures n.Some? ==> 2 <= n.value <= |t|
  {
    if |t| < 2 || t[0] != ESC then None
    else if IsStringIntroducer(t[1]) then
      var k := Span(t, 2, IsPayload);
      Some(k + TerminatorLength(t, k))
    else if t[1] == '[' then
      var k := Span(t, Span(t, 2, IsParameter), IsIntermediate);
      if k < |t| && IsFinal(t[k]) then Some(k + 1) else None
    else if t[1] == ']' && TerminatorLength(t, Span(t, 2, IsPayload)) > 0 then
      var k := Span(t, 2, IsPayload);
      Some(k + TerminatorLength(t, k))
    else if '@' <= t[1] <= 'Z' || '\\' <= t[1] <= '_' then Some(2)
    else None
  }

  function Nothing(t: string): string { "" }

  /** `_ESCAPES.sub("", text)` */
  function RemoveEscapes(t: string): string {
    Sub(t, EscapeLength, Nothing)
  }

  function StripCodepoints(t: string): string {
    if t == "" then ""
    else (if Stripped(t[0]) then "" else [t[0]]) + StripCodepoints(t[1..])
  }

  /** Past `maxLength` the text is cut, leaving room for the marker if there is any. */
  function Cut(t: string, marker: string, maxLength: int): string {
    if |t| > maxLength then
      var keep := if maxLength - |marker| > 0 then maxLength - |marker| else 0;
      (if keep <= |t| then t[..keep] else t) + marker
    else t
  }

  function Sanitize(t: string): string {
    StripCodepoints(RemoveEscapes(Normalize(t)))
  }

  function SanitizeTo(t: string, maxLength: Option<int>): string {
    match maxLength
    case None => Sanitize(t)
    case Some(m) => Cut(Sanitize(t), MARKER, m)
  }

  // ---------- the scanner against the grammar ----------

  lemma TerminatorUnique(t: string, k: nat, p: nat, m: nat)
    requires 2 <= |t| && k == Span(t, 2, IsPayload)
    requires 2 <= p < m <= |t| && All(t[..m], 2, p, IsPayload) && IsTerminator(t[..m][p..])
    ensures p == k && m == k + TerminatorLength(t, k)
  {
    var w := t[..m][p..];
    assert w[0] == t[p];
    assert |w| > 1 ==> w[1] == t[p + 1];
    assert forall i | 2 <= i < p :: t[..m][i] == t[i];
  }

  /** A match is an escape; among the escapes the text starts with it is the longest, or, for
      an operating system command without a terminator, the two-character form. When the
      scanner finds nothing, the text starts with no escape at all. */
  lemma EscapeLengthIsExact(t: string, m: nat)
    requires m <= |t|
    ensures EscapeLength(t).Some? ==> IsEscape(t[..EscapeLength(t).value])
    ensures IsEscape(t[..m]) ==> EscapeLength(t).Some? && m <= EscapeLength(t).value
  {
    if EscapeLength(t).Some? {
      EscapeLengthIsSound(t);
    }
    if IsEscape(t[..m]) {
      EscapeLengthIsComplete(t, m);
    }
  }

  lemma EscapeLengthIsSound(t: string)
    requires EscapeLength(t).Some?
    ensures IsEscape(t[..EscapeLength(t).value])
  {
    var n := EscapeLength(t).value;
    var w := t[..n];
    if IsStringIntroducer(t[1]) || t[1] == ']' {
      var k := Span(t, 2, IsPayload);
      if n == k + TerminatorLength(t, k) && n > k {
        assert w[k..] == t[k..n];
        assert All(w, 2, k, IsPayload) && IsTerminator(w[k..]);
      }
    } else if t[1] == '[' {
      var p := Span(t, 2, IsParameter);
      assert All(w, 2, p, IsParameter) && All(w, p, n - 1, IsIntermediate);
    }
  }

  lemma EscapeLengthIsComplete(t: string, m: nat)
    requires m <= |t| && IsEscape(t[..m])
    ensures EscapeLength(t).Some? && m <= EscapeLength(t).value
  {
    var w := t[..m];
    assert t[0] == w[0] && t[1] == w[1];
    var k := Span(t, 2, IsPayload);
    if EndsInTerminator(w) {
      var p :| 2 <= p < |w| && All(w, 2, p, IsPayload) && IsTerminator(w[p..]);
      TerminatorUnique(t, k, p, m);
    }
    if IsControlSequence(w) {
      var p :| 2 <= p < |w| && All(w, 2, p, IsParameter) && All(w, p, |w| - 1, IsIntermediate);
      assert forall i | 2 <= i < m :: w[i] == t[i];
      SpanIs(t, 2, IsParameter, p);
      SpanIs(t, p, IsIntermediate, m - 1);
    }
    if All(w, 2, |w|, IsPayload) && IsStringIntroducer(w[1]) {
      assert forall i | 2 <= i < m :: w[i] == t[i];
      assert k >= m;
    }
  }

  /** A scan steps over text in which the pattern starts nowhere. */
  lemma {:induction false} SubSkips(a: string, b: string, length: string -> Option<nat>, edit: string -> string)
    requires forall k | 0 <= k < |a| :: Hit(a[k..] + b, length) == 0
    ensures Sub(a + b, length, edit) == a + Sub(b, length, edit)
  {
    if a == "" {
      assert a + b == b;
    } else {
      assert a[0..] == a;
      assert (a + b)[1..] == a[1..] + b;
      forall k | 0 <= k < |a| - 1 ensures Hit(a[1..][k..] + b, length) == 0 {
        assert a[1..][k..] == a[k + 1..];
      }
      SubSkips(a[1..], b, length, edit);
      assert [a[0]] + (a[1..] + Sub(b, length, edit)) == a + Sub(b, length, edit);
    }
  }

  /** After text without an ESC, the escape that follows goes whole, and nothing before it. */
  lemma RemovesWhole(a: string, b: string)
    requires ESC !in a
    ensures RemoveEscapes(a + b) == a + RemoveEscapes(b)
    ensures b != "" && EscapeLength(b).Some? ==> RemoveEscapes(b) == RemoveEscapes(b[EscapeLength(b).value..])
  {
    forall k | 0 <= k < |a| ensures Hit(a[k..] + b, EscapeLength) == 0 {
      assert (a[k..] + b)[0] == a[k];
    }
    SubSkips(a, b, EscapeLength, Nothing);
  }

  /** Every CRLF and every lone CR becomes one LF; the text around it is kept. */
  lemma {:induction false} NewlinesNormalised(a: string, b: string)
    requires '\r' !in a
    ensures Normalize(a + "\r\n" + b) == a + "\n" + Normalize(b)
    ensures (b == "" || b[0] != '\n') ==> Normalize(a + "\r" + b) == a + "\n" + Normalize(b)
  {
    if a == "" {
      assert "" + "\r\n" + b == "\r\n" + b && ("\r\n" + b)[2..] == b;
      assert "" + "\r" + b == "\r" + b && ("\r" + b)[1..] == b;
      assert ("\n" + ReplaceCrLf(b))[1..] == ReplaceCrLf(b) && ("\r" + ReplaceCrLf(b))[1..] == ReplaceCrLf(b);
    } else {
      NewlinesNormalised(a[1..], b);
      NormalizeCons(a[0], a[1..] + "\r\n" + b);
      NormalizeCons(a[0], a[1..] + "\r" + b);
      assert [a[0]] + (a[1..] + "\r\n" + b) == a + "\r\n" + b;
      assert [a[0]] + (a[1..] + "\r" + b) == a + "\r" + b;
      assert [a[0]] + (a[1..] + "\n" + Normalize(b)) == a + "\n" + Normalize(b);
    }
  }

  lemma NormalizeCons(c: char, t: string)
    requires c != '\r'
    ensures Normalize([c] + t) == [c] + Normalize(t)
  {
    assert ([c] + t)[1..] == t;
    assert ([c] + ReplaceCrLf(t))[1..] == ReplaceCrLf(t);
  }

  /** Characters are judged one by one. */
  lemma {:induction false} StripConcat(a: string, b: string)
    ensures StripCodepoints(a + b) == StripCodepoints(a) + StripCodepoints(b)
  {
    if a == "" {
      assert a + b == b;
    } else {
      assert (a + b)[1..] == a[1..] + b;
      StripConcat(a[1..], b);
    }
  }

  // ---------- clean text ----------

  /** What sanitizing leaves alone: no carriage return and no stripped code point (ESC is one). */
  predicate Clean(t: string) {
    forall c | c in t :: c != '\r' && !Stripped(c)
  }

  lemma CleanConcat(a: string, b: string)
    ensures Clean(a + b) <==> Clean(a) && Clean(b)
  {
    assert forall c :: c in a + b <==> c in a || c in b;
  }

  lemma {:induction false} NormalizeHasNoCr(t: string)
    ensures '\r' !in ReplaceCr(t)
  {
    if t != "" { NormalizeHasNoCr(t[1..]); }
  }

  lemma {:induction false} ErasingAddsNothing(t: string, length: string -> Option<nat>)
    ensures forall c | c in Sub(t, length, Nothing) :: c in t
    decreases |t|
  {
    if t != "" {
      ErasingAddsNothing(t[if Hit(t, length) > 0 then Hit(t, length) else 1..], length);
    }
  }

  lemma {:induction false} StripRemoves(t: string)
    ensures forall c | c in StripCodepoints(t) :: c in t && !Stripped(c)
  {
    if t != "" { StripRemoves(t[1..]); }
  }

  lemma SanitizeIsClean(t: string)
    ensures Clean(Sanitize(t))
  {
    NormalizeHasNoCr(ReplaceCrLf(t));
    ErasingAddsNothing(Normalize(t), EscapeLength);
    StripRemoves(RemoveEscapes(Normalize(t)));
  }

  lemma {:induction false} CleanIsKept(t: string)
    requires Clean(t)
    ensures Sanitize(t) == t && Normalize(t) == t && RemoveEscapes(t) == t
  {
    if t != "" {
      assert t[0] in t && forall c | c in t[1..] :: c in t;
      CleanIsKept(t[1..]);
      PassesKeepClean(t[1..], t[0]);
      assert [t[0]] + t[1..] == t;
    }
  }

  /** Each pass prepends a clean first character to what it makes of the rest. */
  lemma PassesKeepClean(rest: string, c: char)
    requires c != '\r' && !Stripped(c)
    requires Sanitize(rest) == rest && Normalize(rest) == rest && RemoveEscapes(rest) == rest
    ensures Sanitize([c] + rest) == [c] + rest
    ensures Normalize([c] + rest) == [c] + rest
    ensures RemoveEscapes([c] + rest) == [c] + rest
  {
    var t := [c] + rest;
    assert t[1..] == rest;
    assert ReplaceCrLf(t) == [c] + ReplaceCrLf(rest);
    assert ([c] + ReplaceCrLf(rest))[1..] == ReplaceCrLf(rest);
    assert Normalize(t) == [c] + Normalize(rest);
  }

  /** Sanitizing is the identity exactly on clean text. */
  lemma IdentityExactlyOnClean(t: string)
    ensures Sanitize(t) == t <==> Clean(t)
  {
    SanitizeIsClean(t);
    if Clean(t) { CleanIsKept(t); }
  }

  // ---------- one pass ----------

  /** The characters that survive on their own: tab, newline and all that is no control, bidi or invisible
      format character. */
  lemma WhatIsKept(c: char)
    ensures var n := c as int;
            !Stripped(c) && c != '\r' <==>
            n == 0x09 || n == 0x0A || 0x20 <= n <= 0x7E || 0xA0 <= n <= 0xAC || 0xAE <= n <= 0x180D ||
            0x180F <= n <= 0x200A || n == 0x200C || n == 0x200D || 0x2010 <= n <= 0x2029 ||
            0x202F <= n <= 0x205F || n == 0x2065 || 0x206A <= n <= 0xFEFE || 0xFF00 <= n <= 0xDFFFF || 0xE0080 <= n
  {
  }

  lemma {:induction false} NormalizedStays(t: string)
    requires '\r' !in t
    ensures ReplaceCrLf(t) == t && ReplaceCr(t) == t
  {
    if t != "" {
      NormalizedStays(t[1..]);
      assert t == [t[0]] + t[1..];
    }
  }

  lemma NormalizedSanitizes(t: string)
    requires '\r' !in t
    ensures Sanitize(t) == StripCodepoints(RemoveEscapes(t))
  {
    NormalizedStays(t);
  }

  lemma ErasesNext(t: string, length: string -> Option<nat>)
    requires t != ""
    ensures Sub(t, length, Nothing) ==
              if Hit(t, length) > 0 then Sub(t[Hit(t, length)..], length, Nothing)
              else [t[0]] + Sub(t[1..], length, Nothing)
  {
    assert Nothing(t[..Hit(t, length)]) == "";
  }

  lemma StripCons(c: char, rest: string)
    ensures StripCodepoints([c] + rest) == (if Stripped(c) then "" else [c]) + StripCodepoints(rest)
  {
    assert ([c] + rest)[1..] == rest;
  }

  /** The three passes are one: with its newlines normalised, a text loses the escape sequence it starts
      with, or else its first character if that is stripped, and the same holds for what follows. */
  lemma OnePass(t: string)
    ensures Sanitize(t) == Sanitize(Normalize(t)) && '\r' !in Normalize(t) && Sanitize("") == ""
    ensures '\r' !in t && t != "" ==>
              Sanitize(t) ==
                if EscapeLength(t).Some? then Sanitize(t[EscapeLength(t).value..])
                else (if Stripped(t[0]) then "" else [t[0]]) + Sanitize(t[1..])
  {
    NormalizeHasNoCr(ReplaceCrLf(t));
    NormalizedSanitizes(Normalize(t));
    if '\r' !in t && t != "" {
      NormalizedSanitizes(t);
      NormalizedSanitizes(t[if EscapeLength(t).Some? then EscapeLength(t).value else 1..]);
      ErasesNext(t, EscapeLength);
      if EscapeLength(t).None? { StripCons(t[0], RemoveEscapes(t[1..])); }
    }
  }

  lemma CutFacts(t: string, marker: string, m: int)
    requires Clean(t) && Clean(marker)
    ensures Clean(Cut(t, marker, m))
    ensures |t| <= m ==> Cut(t, marker, m) == t
    ensures |t| > m ==> |Cut(t, marker, m)| == if m > |marker| then m else |marker|
    ensures |t| > m ==> var k := |Cut(t, marker, m)| - |marker|; k <= |t| && Cut(t, marker, m) == t[..k] + marker
  {
    if |t| > m {
      var keep := if m - |marker| > 0 then m - |marker| else 0;
      CleanConcat(t[..keep], marker);
    }
  }

  lemma CutTwice(t: string, marker: string, m: int)
    ensures Cut(Cut(t, marker, m), marker, m) == Cut(t, marker, m)
  {
    if |t| > m && m <= |marker| {
      assert t[..0] + marker == marker && marker[..0] + marker == marker;
    }
  }

  lemma MarkerIsClean()
    ensures Clean(MARKER) && |MARKER| == 15
  {
  }

  /** Sanitizing twice is sanitizing once, for every text and every length bound. The output
      is clean, and when it was cut it ends in the marker and has exactly the bound's length,
      or the marker's where the bound is smaller. */
  lemma Idempotent(t: string, maxLength: Option<int>)
    ensures SanitizeTo(SanitizeTo(t, maxLength), maxLength) == SanitizeTo(t, maxLength)
    ensures Clean(SanitizeTo(t, maxLength))
    ensures maxLength.Some? && |Sanitize(t)| > maxLength.value ==>
              |SanitizeTo(t, maxLength)| == if maxLength.value > 15 then maxLength.value else 15
    ensures maxLength.Some? && |Sanitize(t)| <= maxLength.value ==> SanitizeTo(t, maxLength) == Sanitize(t)
  {
    SanitizeIsClean(t);
    MarkerIsClean();
    if maxLength.Some? {
      CutFacts(Sanitize(t), MARKER, maxLength.value);
      CutTwice(Sanitize(t), MARKER, maxLength.value);
    }
    CleanIsKept(SanitizeTo(t, maxLength));
  }

  // ---------- nothing is invented ----------

  predicate Subsequence(a: string, b: string) {
    a == "" || (b != "" && ((a[0] == b[0] && Subsequence(a[1..], b[1..])) || Subsequence(a, b[1..])))
  }

  lemma {:induction false} SubsequenceDrop(a: string, b: string, n: nat)
    requires n <= |b| && Subsequence(a, b[n..])
    ensures Subsequence(a, b)
    decreases n
  {
    if n > 0 {
      assert b[n - 1..][1..] == b[n..];
      SubsequenceDrop(a, b, n - 1);
    }
  }

  lemma {:induction false} SubsequenceTransitive(a: string, b: string, c: string)
    requires Subsequence(a, b) && Subsequence(b, c)
    ensures Subsequence(a, c)
    decreases |b| + |c|
  {
    if a != "" {
      if b[0] == c[0] && Subsequence(b[1..], c[1..]) {
        if a[0] == b[0] && Subsequence(a[1..], b[1..]) {
          SubsequenceTransitive(a[1..], b[1..], c[1..]);
        } else {
          SubsequenceTransitive(a, b[1..], c[1..]);
        }
      } else {
        SubsequenceTransitive(a, b, c[1..]);
      }
    }
  }

  lemma {:induction false} ErasingSubsequence(t: string, length: string -> Option<nat>)
    ensures Subsequence(Sub(t, length, Nothing), t)
    decreases |t|
  {
    if t != "" {
      var n := Hit(t, length);
      var r := Sub(t, length, Nothing);
      if n > 0 {
        ErasingSubsequence(t[n..], length);
        assert r == Sub(t[n..], length, Nothing);
        SubsequenceDrop(r, t, n);
      } else {
        ErasingSubsequence(t[1..], length);
        assert r[1..] == Sub(t[1..], length, Nothing);
      }
    }
  }

  lemma {:induction false} StripSubsequence(t: string)
    ensures Subsequence(StripCodepoints(t), t)
  {
    if t != "" {
      StripSubsequence(t[1..]);
      if Stripped(t[0]) {
        assert StripCodepoints(t) == StripCodepoints(t[1..]);
        SubsequenceDrop(StripCodepoints(t), t, 1);
      } else {
        assert StripCodepoints(t)[1..] == StripCodepoints(t[1..]);
      }
    }
  }

  /** Without truncation the output is a subsequence of the newline-normalised input. */
  lemma OnlyRemoves(t: string)
    ensures Subsequence(Sanitize(t), Normalize(t))
  {
    var n := Normalize(t);
    ErasingSubsequence(n, EscapeLength);
    StripSubsequence(RemoveEscapes(n));
    SubsequenceTransitive(Sanitize(t), RemoveEscapes(n), n);
  }

  /** ... and on text without escapes nothing but stripped code points goes. */
  lemma PlainTextKeepsItsCharacters(t: string)
    requires ESC !in Normalize(t)
    ensures Sanitize(t) == StripCodepoints(Normalize(t))
  {
    RemovesWhole(Normalize(t), "");
    assert Normalize(t) + "" == Normalize(t);
  }

  // ---------- a clean beginning stays ----------

  lemma {:induction false} NormalizePrefix(a: string, b: string)
    requires '\r' !in a
    ensures Normalize(a + b) == a + Normalize(b)
  {
    if a == "" {
      assert a + b == b;
    } else {
      NormalizePrefix(a[1..], b);
      NormalizeCons(a[0], a[1..] + b);
      assert [a[0]] + (a[1..] + b) == a + b;
      assert [a[0]] + (a[1..] + Normalize(b)) == a + Normalize(b);
    }
  }

  lemma {:induction false} StripKeepsClean(a: string)
    requires Clean(a)
    ensures StripCodepoints(a) == a
  {
    CleanIsKept(a);
  }

  /** Nothing that follows clean text can reach back into it. */
  lemma CleanPrefixSurvives(a: string, b: string)
    requires Clean(a)
    ensures Sanitize(a + b) == a + Sanitize(b)
  {
    NormalizePrefix(a, b);
    RemovesWhole(a, Normalize(b));
    StripConcat(a, RemoveEscapes(Normalize(b)));
    StripKeepsClean(a);
  }
}
