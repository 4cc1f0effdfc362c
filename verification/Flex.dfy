/** FLEX, the one-line message language of the channel: a printer that refuses what would break
    the grammar, and a parser that accepts every text. */
module Flex {
  import opened Options
  import opened Text
  import opened Sanitizer

  datatype Message = Message(
    kind: string, to: seq<string>, refs: seq<string>, fields: map<string, string>, note: string)

  datatype Part = Kind | Recipient | Ref | FieldKey | FieldValue
  datatype FlexError = FlexError(part: Part)

  const NOTE_SEP: string := " | "

  // ---------- sorted keys ----------

  /** Python's string order: code point by code point, a prefix first. */
  predicate Le(a: string, b: string) {
    a == "" || (b != "" && (a[0] < b[0] || (a[0] == b[0] && Le(a[1..], b[1..]))))
  }

  lemma {:induction false} LeTotal(a: string, b: string)
    ensures Le(a, b) || Le(b, a)
    ensures Le(a, b) && Le(b, a) ==> a == b
  {
    if a != "" && b != "" && a[0] == b[0] {
      LeTotal(a[1..], b[1..]);
      if Le(a, b) && Le(b, a) { assert a == [a[0]] + a[1..] && b == [b[0]] + b[1..]; }
    }
  }

  lemma {:induction false} LeTransitive(a: string, b: string, c: string)
    requires Le(a, b) && Le(b, c)
    ensures Le(a, c)
  {
    if a != "" && a[0] == b[0] == c[0] { LeTransitive(a[1..], b[1..], c[1..]); }
  }

  predicate IsLeast(k: string, keys: set<string>) {
    k in keys && forall j | j in keys :: Le(k, j)
  }

  lemma {:induction false} LeastExists(keys: set<string>) returns (k: string)
    requires keys != {}
    ensures IsLeast(k, keys)
  {
    k :| k in keys;
    var rest := keys - {k};
    LeTotal(k, k);
    if rest != {} {
      var l := LeastExists(rest);
      LeTotal(k, l);
      if Le(k, l) {
        forall j | j in keys ensures Le(k, j) {
          if j != k { LeTransitive(k, l, j); }
        }
      } else {
        assert forall j | j in keys :: j == k || j in rest;
        k := l;
      }
    } else {
      assert forall j | j in keys :: j == k || j in rest;
    }
  }

  /** `sorted(message.fields)` */
  ghost function SortedKeys(keys: set<string>): (r: seq<string>)
    decreases |keys|
  {
    if keys == {} then []
    else
      assert exists k :: IsLeast(k, keys) by { var k := LeastExists(keys); }
      var k :| IsLeast(k, keys);
      [k] + SortedKeys(keys - {k})
  }

  lemma SortedKeysStep(keys: set<string>) returns (k: string)
    requires keys != {}
    ensures IsLeast(k, keys) && SortedKeys(keys) == [k] + SortedKeys(keys - {k})
  {
    assert exists j :: IsLeast(j, keys) by { var j := LeastExists(keys); }
    k :| IsLeast(k, keys) && SortedKeys(keys) == [k] + SortedKeys(keys - {k});
  }

  lemma {:induction false} SortedKeysListsAll(keys: set<string>)
    ensures |SortedKeys(keys)| == |keys| && forall k :: k in SortedKeys(keys) <==> k in keys
    decreases |keys|
  {
    if keys != {} {
      var k := SortedKeysStep(keys);
      SortedKeysListsAll(keys - {k});
    }
  }

  /** Strictly increasing: every key is emitted once, in a fixed order. */
  lemma {:induction false} SortedKeysIncrease(keys: set<string>, i: nat, j: nat)
    requires i < j < |SortedKeys(keys)|
    ensures Le(SortedKeys(keys)[i], SortedKeys(keys)[j]) && SortedKeys(keys)[i] != SortedKeys(keys)[j]
    decreases |keys|
  {
    var k := SortedKeysStep(keys);
    SortedKeysListsAll(keys - {k});
    if i == 0 {
      var x := SortedKeys(keys)[j];
      assert x == SortedKeys(keys - {k})[j - 1];
      assert x in SortedKeys(keys - {k});
    } else {
      SortedKeysIncrease(keys - {k}, i - 1, j - 1);
    }
  }

  lemma LeastIsFirst(keys: set<string>, k: string)
    requires IsLeast(k, keys)
    ensures SortedKeys(keys) == [k] + SortedKeys(keys - {k})
  {
    var l := SortedKeysStep(keys);
    LeTotal(k, l);
  }

  // ---------- the wire form ----------

  /** What the printer accepts: tokens everywhere but in the note. */
  predicate Encodable(m: Message) {
    IsToken(m.kind) &&
    (forall i | 0 <= i < |m.to| :: IsToken(m.to[i])) &&
    (forall i | 0 <= i < |m.refs| :: IsToken(m.refs[i])) &&
    (forall k | k in m.fields :: IsToken(k) && IsToken(m.fields[k]))
  }

  function Marked(mark: char, names: seq<string>): (r: seq<string>)
    ensures |r| == |names| && forall i | 0 <= i < |r| :: r[i] == [mark] + names[i]
  {
    if |names| == 0 then [] else [[mark] + names[0]] + Marked(mark, names[1..])
  }

  function FieldPart(k: string, fields: map<string, string>): string {
    k + "=" + if k in fields then fields[k] else ""
  }

  function FieldParts(keys: seq<string>, fields: map<string, string>): (r: seq<string>)
    ensures |r| == |keys| && forall i | 0 <= i < |r| :: r[i] == FieldPart(keys[i], fields)
  {
    if |keys| == 0 then [] else [FieldPart(keys[0], fields)] + FieldParts(keys[1..], fields)
  }

  ghost function Parts(m: Message): seq<string> {
    [m.kind] + Marked('@', m.to) + Marked('#', m.refs) + FieldParts(SortedKeys(m.fields.Keys), m.fields)
  }

  ghost function Wire(m: Message): string {
    JoinWords(Parts(m)) + if m.note == "" then "" else NOTE_SEP + m.note
  }

  /** The printer. It refuses exactly the messages that are not encodable, naming a part that is
      no token. */
  method Encode(m: Message) returns (r: Result<string, FlexError>)
    ensures r.Ok? <==> Encodable(m)
    ensures r.Ok? ==> r.value == Wire(m)
    ensures r.Err? && r.error.part.Kind? ==> !IsToken(m.kind)
    ensures r.Err? && r.error.part.Recipient? ==> exists x | x in m.to :: !IsToken(x)
    ensures r.Err? && r.error.part.Ref? ==> exists x | x in m.refs :: !IsToken(x)
    ensures r.Err? && r.error.part.FieldKey? ==> exists k | k in m.fields :: !IsToken(k)
    ensures r.Err? && r.error.part.FieldValue? ==> exists k | k in m.fields :: !IsToken(m.fields[k])
  {
    if !IsToken(m.kind) { return Err(FlexError(Kind)); }
    var parts, ok := AddMarked([m.kind], '@', m.to);
    if !ok { return Err(FlexError(Recipient)); }
    parts, ok := AddMarked(parts, '#', m.refs);
    if !ok { return Err(FlexError(Ref)); }
    parts, r := AddFields(parts, m.fields);
    if r.Err? { return; }
    r := Ok(JoinWords(parts) + if m.note == "" then "" else NOTE_SEP + m.note);
  }

  /** The printer's loops over recipients and references. */
  method AddMarked(before: seq<string>, mark: char, names: seq<string>) returns (parts: seq<string>, ok: bool)
    ensures ok <==> forall i | 0 <= i < |names| :: IsToken(names[i])
    ensures !ok ==> exists x | x in names :: !IsToken(x)
    ensures ok ==> parts == before + Marked(mark, names)
  {
    parts := before;
    for i := 0 to |names|
      invariant parts + Marked(mark, names[i..]) == before + Marked(mark, names)
      invariant forall j | 0 <= j < i :: IsToken(names[j])
    {
      if !IsToken(names[i]) {
        assert names[i] in names;
        return parts, false;
      }
      assert names[i..][1..] == names[i + 1..];
      parts := parts + [[mark] + names[i]];
    }
    ok := true;
  }

  /** The printer's field loop, in sorted key order. */
  method AddFields(before: seq<string>, fields: map<string, string>)
    returns (parts: seq<string>, r: Result<string, FlexError>)
    ensures r.Ok? <==> forall k | k in fields :: IsToken(k) && IsToken(fields[k])
    ensures r.Ok? ==> parts == before + FieldParts(SortedKeys(fields.Keys), fields)
    ensures r.Err? ==> r.error.part.FieldKey? || r.error.part.FieldValue?
    ensures r.Err? && r.error.part.FieldKey? ==> exists k | k in fields :: !IsToken(k)
    ensures r.Err? && r.error.part.FieldValue? ==> exists k | k in fields :: !IsToken(fields[k])
  {
    parts, r := before, Ok("");
    var rest := fields.Keys;
    while rest != {}
      invariant rest <= fields.Keys
      invariant forall k | k in fields && k !in rest :: IsToken(k) && IsToken(fields[k])
      invariant parts + FieldParts(SortedKeys(rest), fields) == before + FieldParts(SortedKeys(fields.Keys), fields)
      decreases |rest|
    {
      assert exists k :: IsLeast(k, rest) by { var k := LeastExists(rest); }
      var key :| key in rest && forall j | j in rest :: Le(key, j);
      if !IsToken(key) { return parts, Err(FlexError(FieldKey)); }
      if !IsToken(fields[key]) { return parts, Err(FlexError(FieldValue)); }
      LeastIsFirst(rest, key);
      NextField(parts, key, rest - {key}, fields);
      parts := parts + [key + "=" + fields[key]];
      rest := rest - {key};
    }
  }

  lemma NextField(parts: seq<string>, key: string, rest: set<string>, fields: map<string, string>)
    ensures parts + FieldParts([key] + SortedKeys(rest), fields)
         == parts + [FieldPart(key, fields)] + FieldParts(SortedKeys(rest), fields)
  {
    assert ([key] + SortedKeys(rest))[1..] == SortedKeys(rest);
  }

  // ---------- the parser ----------

  datatype Header = Header(to: seq<string>, refs: seq<string>, fields: map<string, string>, extra: seq<string>)

  const EMPTY_HEADER: Header := Header([], [], map[], [])

  predicate NotEquals(c: char) { c != '=' }

  /** One header token: a recipient, a reference, a field, or something the note will keep. */
  function Absorb(h: Header, tok: string): Header {
    var eq := Span(tok, 0, NotEquals);
    if |tok| > 1 && tok[0] == '@' then h.(to := h.to + [tok[1..]])
    else if |tok| > 1 && tok[0] == '#' then h.(refs := h.refs + [tok[1..]])
    else if 0 < eq < |tok| then h.(fields := h.fields[tok[..eq] := tok[eq + 1..]])
    else h.(extra := h.extra + [tok])
  }

  function AbsorbAll(h: Header, toks: seq<string>): Header
    decreases |toks|
  {
    if |toks| == 0 then h else AbsorbAll(Absorb(h, toks[0]), toks[1..])
  }

  /** The unrecognised tokens, then the free text after the separator. */
  function NoteOf(extra: seq<string>, note: string): string {
    var left := JoinWords(extra);
    Strip(if left != "" && note != "" then left + " " + note else left + note)
  }

  function HeaderText(text: string): string {
    var i := Find(text, NOTE_SEP);
    if i < 0 then text else text[..i]
  }

  function NoteText(text: string): string {
    var i := Find(text, NOTE_SEP);
    if i < 0 then "" else text[i + |NOTE_SEP|..]
  }

  function ParseClean(text: string): Message {
    var toks := Split(HeaderText(text));
    if |toks| == 0 then Message("", [], [], map[], NoteOf([], NoteText(text)))
    else
      var h := AbsorbAll(EMPTY_HEADER, toks[1..]);
      Message(toks[0], h.to, h.refs, h.fields, NoteOf(h.extra, NoteText(text)))
  }

  function Parse(text: string): Message {
    ParseClean(Sanitize(text))
  }

  /** The parser's loop over the header tokens. */
  method ParseText(text: string) returns (m: Message)
    ensures m == Parse(text)
  {
    var clean := Sanitize(text);
    var toks := Split(HeaderText(clean));
    var kind := "";
    var to: seq<string>, refs: seq<string>, fields: map<string, string>, extra: seq<string> := [], [], map[], [];
    if |toks| > 0 {
      kind := toks[0];
      var i := 1;
      while i < |toks|
        invariant 1 <= i <= |toks|
        invariant AbsorbAll(Header(to, refs, fields, extra), toks[i..]) == AbsorbAll(EMPTY_HEADER, toks[1..])
      {
        var tok := toks[i];
        var eq := Span(tok, 0, NotEquals);
        assert toks[i..][1..] == toks[i + 1..];
        if |tok| > 1 && tok[0] == '@' {
          to := to + [tok[1..]];
        } else if |tok| > 1 && tok[0] == '#' {
          refs := refs + [tok[1..]];
        } else if 0 < eq < |tok| {
          fields := fields[tok[..eq] := tok[eq + 1..]];
        } else {
          extra := extra + [tok];
        }
        i := i + 1;
      }
    }
    m := Message(kind, to, refs, fields, NoteOf(extra, NoteText(clean)));
  }

  // ---------- what survives the round trip ----------

  predicate CanonicalKey(k: string) {
    k != "" && '=' !in k && k[0] != '@' && k[0] != '#'
  }

  predicate AllClean(names: seq<string>) {
    forall i | 0 <= i < |names| :: Clean(names[i])
  }

  predicate CanonicalFields(fields: map<string, string>) {
    forall k | k in fields :: CanonicalKey(k) && Clean(k) && Clean(fields[k])
  }

  /** No key that reads as something else, a note without outer blanks, and nothing the
      sanitizer would change. */
  predicate Canonical(m: Message) {
    Clean(m.kind) && AllClean(m.to) && AllClean(m.refs) && CanonicalFields(m.fields) &&
    Clean(m.note) && Trimmed(m.note)
  }

  lemma ConcatAt<T>(z: seq<T>, a: seq<T>, b: seq<T>, c: seq<T>, i: nat)
    requires |z| == 1 && i < |z + a + b + c|
    ensures (z + a + b + c)[i] ==
            if i == 0 then z[0]
            else if i <= |a| then a[i - 1]
            else if i <= |a| + |b| then b[i - 1 - |a|]
            else c[i - 1 - |a| - |b|]
  {
  }

  /** Which part stands where. */
  lemma PartAt(m: Message, i: nat) returns (k: string)
    requires i < |Parts(m)|
    ensures i == 0 ==> Parts(m)[i] == m.kind
    ensures 0 < i <= |m.to| ==> Parts(m)[i] == ['@'] + m.to[i - 1]
    ensures |m.to| < i <= |m.to| + |m.refs| ==> Parts(m)[i] == ['#'] + m.refs[i - 1 - |m.to|]
    ensures i > |m.to| + |m.refs| ==> k in m.fields && Parts(m)[i] == k + "=" + m.fields[k]
  {
    k := "";
    var keys := SortedKeys(m.fields.Keys);
    var a, b, c := Marked('@', m.to), Marked('#', m.refs), FieldParts(keys, m.fields);
    ConcatAt([m.kind], a, b, c, i);
    if i > |m.to| + |m.refs| {
      k := keys[i - 1 - |m.to| - |m.refs|];
      assert k in keys;
      SortedKeysListsAll(m.fields.Keys);
    }
  }

  lemma PartsAreTokens(m: Message)
    requires Encodable(m)
    ensures forall i | 0 <= i < |Parts(m)| :: IsToken(Parts(m)[i])
    ensures forall i | 0 < i < |Parts(m)| :: Parts(m)[i] != "|"
    ensures |Parts(m)| > 0
  {
    forall i | 0 <= i < |Parts(m)| ensures IsToken(Parts(m)[i]) && (i > 0 ==> Parts(m)[i] != "|") {
      var k := PartAt(m, i);
      if 0 < i <= |m.to| {
        MarkedIsToken('@', m.to[i - 1]);
      } else if |m.to| < i <= |m.to| + |m.refs| {
        MarkedIsToken('#', m.refs[i - 1 - |m.to|]);
      } else if i > 0 {
        FieldPartIsToken(k, m.fields[k]);
      }
    }
  }

  lemma MarkedIsToken(mark: char, name: string)
    requires IsToken(name) && (mark == '@' || mark == '#')
    ensures IsToken([mark] + name) && [mark] + name != "|"
  {
    assert ([mark] + name)[0] == mark;
  }

  lemma FieldPartIsToken(k: string, v: string)
    requires IsToken(k) && IsToken(v)
    ensures IsToken(k + "=" + v) && k + "=" + v != "|"
  {
    assert |k + "=" + v| >= 3;
  }

  /** The parser cuts a printed message where the printer joined it. */
  lemma CutAtSeparator(m: Message)
    requires Encodable(m)
    ensures HeaderText(Wire(m)) == JoinWords(Parts(m)) && NoteText(Wire(m)) == m.note
  {
    PartsAreTokens(m);
    var header := JoinWords(Parts(m));
    var tail := if m.note == "" then "" else NOTE_SEP + m.note;
    var w := Wire(m);
    forall i | 0 <= i < |header| ensures !At(w, NOTE_SEP, i) {
      NoBarInHeader(Parts(m), tail, i);
    }
    if m.note == "" {
      assert w == header;
      assert forall i :: At(w, NOTE_SEP, i) ==> i < |header|;
    } else {
      assert w[|header|..|header| + 3] == NOTE_SEP;
      assert At(w, NOTE_SEP, |header|);
      assert Find(w, NOTE_SEP) == |header|;
      assert w[..|header|] == header && w[|header| + 3..] == m.note;
    }
  }

  lemma {:induction false} AbsorbConcat(h: Header, xs: seq<string>, ys: seq<string>)
    ensures AbsorbAll(h, xs + ys) == AbsorbAll(AbsorbAll(h, xs), ys)
    decreases |xs|
  {
    if |xs| == 0 {
      assert xs + ys == ys;
    } else {
      assert (xs + ys)[1..] == xs[1..] + ys;
      AbsorbConcat(Absorb(h, xs[0]), xs[1..], ys);
    }
  }

  lemma AbsorbRecipient(h: Header, name: string)
    requires name != ""
    ensures Absorb(h, ['@'] + name) == h.(to := h.to + [name])
  {
    assert (['@'] + name)[1..] == name;
  }

  lemma {:induction false} AbsorbRecipients(h: Header, names: seq<string>)
    requires forall i | 0 <= i < |names| :: names[i] != ""
    ensures AbsorbAll(h, Marked('@', names)) == h.(to := h.to + names)
    decreases |names|
  {
    if |names| == 0 {
      assert h.to + names == h.to;
    } else {
      AbsorbRecipient(h, names[0]);
      AbsorbRecipients(h.(to := h.to + [names[0]]), names[1..]);
      assert h.to + [names[0]] + names[1..] == h.to + names;
      assert Marked('@', names)[1..] == Marked('@', names[1..]);
    }
  }

  lemma AbsorbRef(h: Header, name: string)
    requires name != ""
    ensures Absorb(h, ['#'] + name) == h.(refs := h.refs + [name])
  {
    assert (['#'] + name)[1..] == name;
  }

  lemma {:induction false} AbsorbRefs(h: Header, names: seq<string>)
    requires forall i | 0 <= i < |names| :: names[i] != ""
    ensures AbsorbAll(h, Marked('#', names)) == h.(refs := h.refs + names)
    decreases |names|
  {
    if |names| == 0 {
      assert h.refs + names == h.refs;
    } else {
      AbsorbRef(h, names[0]);
      AbsorbRefs(h.(refs := h.refs + [names[0]]), names[1..]);
      assert h.refs + [names[0]] + names[1..] == h.refs + names;
      assert Marked('#', names)[1..] == Marked('#', names[1..]);
    }
  }

  lemma AbsorbField(h: Header, k: string, v: string)
    requires CanonicalKey(k)
    ensures Absorb(h, k + "=" + v) == h.(fields := h.fields[k := v])
  {
    var tok := k + "=" + v;
    assert forall i | 0 <= i < |k| :: tok[i] == k[i] && k[i] in k;
    SpanIs(tok, 0, NotEquals, |k|);
    assert tok[..|k|] == k && tok[|k| + 1..] == v;
  }

  /** `base` with the listed keys of `fields` written into it, one by one. */
  function WithKeys(base: map<string, string>, keys: seq<string>, fields: map<string, string>): map<string, string>
    decreases |keys|
  {
    if |keys| == 0 then base
    else WithKeys(base[keys[0] := if keys[0] in fields then fields[keys[0]] else ""], keys[1..], fields)
  }

  lemma {:induction false} WithKeysFacts(base: map<string, string>, keys: seq<string>, fields: map<string, string>)
    requires forall k | k in keys :: k in fields
    requires forall k | k in base :: k in fields && base[k] == fields[k]
    ensures forall k | k in WithKeys(base, keys, fields) :: k in fields && WithKeys(base, keys, fields)[k] == fields[k]
    ensures forall k | k in base || k in keys :: k in WithKeys(base, keys, fields)
    decreases |keys|
  {
    if |keys| > 0 {
      assert forall k | k in keys :: k == keys[0] || k in keys[1..];
      WithKeysFacts(base[keys[0] := fields[keys[0]]], keys[1..], fields);
    }
  }

  lemma {:induction false} AbsorbFields(h: Header, keys: seq<string>, fields: map<string, string>)
    requires forall i | 0 <= i < |keys| :: CanonicalKey(keys[i])
    ensures AbsorbAll(h, FieldParts(keys, fields)) == h.(fields := WithKeys(h.fields, keys, fields))
    decreases |keys|
  {
    if |keys| > 0 {
      var v := if keys[0] in fields then fields[keys[0]] else "";
      AbsorbField(h, keys[0], v);
      AbsorbFields(h.(fields := h.fields[keys[0] := v]), keys[1..], fields);
      assert FieldParts(keys, fields)[1..] == FieldParts(keys[1..], fields);
    }
  }

  lemma FieldsRoundTrip(h: Header, fields: map<string, string>)
    requires CanonicalFields(fields) && h.fields == map[]
    ensures AbsorbAll(h, FieldParts(SortedKeys(fields.Keys), fields)) == h.(fields := fields)
  {
    var keys := SortedKeys(fields.Keys);
    SortedKeysListsAll(fields.Keys);
    forall i | 0 <= i < |keys| ensures CanonicalKey(keys[i]) { assert keys[i] in keys; }
    AbsorbFields(h, keys, fields);
    WithKeysFacts(map[], keys, fields);
    assert WithKeys(map[], keys, fields) == fields;
  }

  lemma AbsorbThree(h: Header, a: seq<string>, b: seq<string>, c: seq<string>)
    ensures AbsorbAll(h, a + (b + c)) == AbsorbAll(AbsorbAll(AbsorbAll(h, a), b), c)
  {
    AbsorbConcat(h, a, b + c);
    AbsorbConcat(AbsorbAll(h, a), b, c);
  }

  lemma NamesRoundTrip(m: Message)
    requires Encodable(m)
    ensures AbsorbAll(AbsorbAll(EMPTY_HEADER, Marked('@', m.to)), Marked('#', m.refs)) == Header(m.to, m.refs, map[], [])
  {
    AbsorbRecipients(EMPTY_HEADER, m.to);
    assert [] + m.to == m.to && [] + m.refs == m.refs;
    AbsorbRefs(Header(m.to, [], map[], []), m.refs);
  }

  /** Reading back a printed header. */
  lemma PartsOfHeader(m: Message)
    ensures Parts(m)[1..] ==
              Marked('@', m.to) + (Marked('#', m.refs) + FieldParts(SortedKeys(m.fields.Keys), m.fields))
  {
  }

  lemma HeaderRoundTrip(m: Message)
    requires Encodable(m) && CanonicalFields(m.fields)
    ensures AbsorbAll(EMPTY_HEADER, Parts(m)[1..]) == Header(m.to, m.refs, m.fields, [])
  {
    var fp := FieldParts(SortedKeys(m.fields.Keys), m.fields);
    PartsOfHeader(m);
    AbsorbThree(EMPTY_HEADER, Marked('@', m.to), Marked('#', m.refs), fp);
    NamesRoundTrip(m);
    FieldsRoundTrip(Header(m.to, m.refs, map[], []), m.fields);
  }

  lemma {:induction false} JoinIsClean(parts: seq<string>)
    requires AllClean(parts)
    ensures Clean(JoinWords(parts))
  {
    if |parts| > 1 {
      JoinIsClean(parts[1..]);
      CleanConcat(parts[0] + " ", JoinWords(parts[1..]));
      CleanConcat(parts[0], " ");
    }
  }

  lemma WireIsClean(m: Message)
    requires Encodable(m) && Canonical(m)
    ensures Clean(Wire(m))
  {
    forall i | 0 <= i < |Parts(m)| ensures Clean(Parts(m)[i]) {
      var k := PartAt(m, i);
      if 0 < i <= |m.to| {
        CleanConcat("@", m.to[i - 1]);
      } else if |m.to| < i <= |m.to| + |m.refs| {
        CleanConcat("#", m.refs[i - 1 - |m.to|]);
      } else if i > 0 {
        CleanConcat(k + "=", m.fields[k]);
        CleanConcat(k, "=");
      }
    }
    JoinIsClean(Parts(m));
    CleanConcat(NOTE_SEP, m.note);
    CleanConcat(JoinWords(Parts(m)), if m.note == "" then "" else NOTE_SEP + m.note);
  }

  lemma CanonicalRoundTrip(m: Message)
    requires Encodable(m) && Canonical(m)
    ensures Parse(Wire(m)) == m
  {
    WireIsClean(m);
    CleanIsKept(Wire(m));
    WireSplits(m);
    HeaderRoundTrip(m);
    TextReads(Wire(m), Parts(m), Header(m.to, m.refs, m.fields, []), m.note);
    NoteIsKept(m.note);
  }

  lemma TextReads(text: string, toks: seq<string>, h: Header, note: string)
    requires Split(HeaderText(text)) == toks && NoteText(text) == note && |toks| > 0
    requires AbsorbAll(EMPTY_HEADER, toks[1..]) == h
    ensures ParseClean(text) == Message(toks[0], h.to, h.refs, h.fields, NoteOf(h.extra, note))
  {
  }

  lemma NoteIsKept(note: string)
    requires Trimmed(note)
    ensures NoteOf([], note) == note
  {
    assert "" + note == note;
  }

  lemma WireSplits(m: Message)
    requires Encodable(m)
    ensures Split(HeaderText(Wire(m))) == Parts(m) && NoteText(Wire(m)) == m.note && Parts(m)[0] == m.kind
  {
    CutAtSeparator(m);
    PartsAreTokens(m);
    SplitJoin(Parts(m));
  }

  // ---------- the parser's range ----------

  lemma {:induction false} SplitIsClean(s: string)
    requires Clean(s)
    ensures AllClean(Split(s))
    decreases |s|
  {
    if s != "" {
      var k := Span(s, 0, NotSpace);
      if IsSpace(s[0]) {
        assert s == [s[0]] + s[1..];
        CleanConcat([s[0]], s[1..]);
        SplitIsClean(s[1..]);
      } else {
        assert s == s[..k] + s[k..];
        CleanConcat(s[..k], s[k..]);
        SplitIsClean(s[k..]);
      }
    }
  }

  predicate CanonicalHeader(h: Header) {
    AllClean(h.to) && AllClean(h.refs) && CanonicalFields(h.fields) && AllClean(h.extra)
  }

  lemma AbsorbKeepsCanonical(h: Header, tok: string)
    requires CanonicalHeader(h) && IsToken(tok) && Clean(tok)
    ensures CanonicalHeader(Absorb(h, tok))
  {
    var eq := Span(tok, 0, NotEquals);
    assert tok == tok[..1] + tok[1..];
    CleanConcat(tok[..1], tok[1..]);
    if 0 < eq < |tok| {
      assert tok == tok[..eq] + (tok[eq..eq + 1] + tok[eq + 1..]);
      CleanConcat(tok[..eq], tok[eq..eq + 1] + tok[eq + 1..]);
      CleanConcat(tok[eq..eq + 1], tok[eq + 1..]);
      assert forall c | c in tok[..eq] :: c != '=';
      assert tok[..eq][0] == tok[0];
    }
  }

  lemma {:induction false} AbsorbAllKeepsCanonical(h: Header, toks: seq<string>)
    requires CanonicalHeader(h) && AllClean(toks)
    requires forall i | 0 <= i < |toks| :: IsToken(toks[i])
    ensures CanonicalHeader(AbsorbAll(h, toks))
    decreases |toks|
  {
    if |toks| > 0 {
      AbsorbKeepsCanonical(h, toks[0]);
      AbsorbAllKeepsCanonical(Absorb(h, toks[0]), toks[1..]);
    }
  }

  lemma NoteIsCanonical(extra: seq<string>, note: string)
    requires AllClean(extra) && Clean(note)
    ensures Clean(NoteOf(extra, note)) && Trimmed(NoteOf(extra, note))
  {
    JoinIsClean(extra);
    var left := JoinWords(extra);
    CleanConcat(left, " ");
    CleanConcat(left + " ", note);
    CleanConcat(left, note);
  }

  /** Whatever the text, what the parser makes of it is canonical. */
  lemma ParseIsCanonical(text: string)
    ensures Canonical(Parse(text))
  {
    var t := Sanitize(text);
    SanitizeIsClean(text);
    var i := Find(t, NOTE_SEP);
    if i >= 0 {
      assert t == t[..i] + (t[i..i + 3] + t[i + 3..]);
      CleanConcat(t[..i], t[i..i + 3] + t[i + 3..]);
      CleanConcat(t[i..i + 3], t[i + 3..]);
    }
    var toks := Split(HeaderText(t));
    SplitIsClean(HeaderText(t));
    if |toks| > 0 {
      AbsorbAllKeepsCanonical(EMPTY_HEADER, toks[1..]);
      NoteIsCanonical(AbsorbAll(EMPTY_HEADER, toks[1..]).extra, NoteText(t));
    } else {
      NoteIsCanonical([], NoteText(t));
    }
  }

  // ---------- nothing is lost ----------

  predicate IsMarked(tok: string, mark: char) {
    |tok| > 1 && tok[0] == mark
  }

  /** The marked words, without their marks, in order. */
  function Names(mark: char, toks: seq<string>): seq<string> {
    if |toks| == 0 then []
    else (if IsMarked(toks[0], mark) then [toks[0][1..]] else []) + Names(mark, toks[1..])
  }

  /** An unmarked word `k=v`: the key ends at the first equals sign and is not empty. */
  predicate IsFieldOf(tok: string, k: string, v: string) {
    !IsMarked(tok, '@') && !IsMarked(tok, '#') && k != "" && '=' !in k && tok == k + "=" + v
  }

  /** Unmarked, and no field. */
  predicate IsExtra(tok: string) {
    !IsMarked(tok, '@') && !IsMarked(tok, '#') && (tok == "" || tok[0] == '=' || '=' !in tok)
  }

  function Extras(toks: seq<string>): seq<string> {
    if |toks| == 0 then [] else (if IsExtra(toks[0]) then [toks[0]] else []) + Extras(toks[1..])
  }

  ghost predicate GivesKey(tok: string, k: string) {
    exists v :: IsFieldOf(tok, k, v)
  }

  /** The last of the words for a key gives its value. */
  ghost predicate LastGives(toks: seq<string>, i: nat, k: string, v: string) {
    i < |toks| && IsFieldOf(toks[i], k, v) && forall j | i < j < |toks| :: !GivesKey(toks[j], k)
  }

  /** A field is where the printer would put its equals sign. */
  lemma FieldIs(tok: string)
    requires !IsMarked(tok, '@') && !IsMarked(tok, '#')
    ensures var eq := Span(tok, 0, NotEquals);
            (0 < eq < |tok| <==> !IsExtra(tok)) &&
            (0 < eq < |tok| ==> IsFieldOf(tok, tok[..eq], tok[eq + 1..])) &&
            forall k, v | IsFieldOf(tok, k, v) :: 0 < eq < |tok| && k == tok[..eq] && v == tok[eq + 1..]
  {
    var eq := Span(tok, 0, NotEquals);
    assert eq == |tok| <==> '=' !in tok;
    if 0 < eq < |tok| {
      assert tok == tok[..eq] + "=" + tok[eq + 1..];
      assert '=' !in tok[..eq];
    }
    forall k, v | IsFieldOf(tok, k, v) ensures 0 < eq < |tok| && k == tok[..eq] && v == tok[eq + 1..] {
      assert forall i | 0 <= i < |k| :: tok[i] == k[i];
      SpanIs(tok, 0, NotEquals, |k|);
    }
  }

  lemma WordIs(h: Header, tok: string)
    ensures Absorb(h, tok).to == h.to + Names('@', [tok]) && Absorb(h, tok).refs == h.refs + Names('#', [tok])
    ensures Absorb(h, tok).extra == h.extra + Extras([tok])
  {
    if !IsMarked(tok, '@') && !IsMarked(tok, '#') { FieldIs(tok); }
  }

  lemma FieldsAfter(h: Header, tok: string)
    ensures forall k, v | IsFieldOf(tok, k, v) :: Absorb(h, tok).fields == h.fields[k := v]
    ensures (forall k, v :: !IsFieldOf(tok, k, v)) ==> Absorb(h, tok).fields == h.fields
  {
    if !IsMarked(tok, '@') && !IsMarked(tok, '#') { FieldIs(tok); }
  }

  lemma {:induction false} WordsAre(h: Header, toks: seq<string>)
    ensures AbsorbAll(h, toks).to == h.to + Names('@', toks) && AbsorbAll(h, toks).refs == h.refs + Names('#', toks)
    ensures AbsorbAll(h, toks).extra == h.extra + Extras(toks)
    decreases |toks|
  {
    if |toks| > 0 {
      WordIs(h, toks[0]);
      WordsAre(Absorb(h, toks[0]), toks[1..]);
    }
  }

  /** A key has the value its last word gives it, or what it had. */
  lemma LaterGives(toks: seq<string>, i: nat, k: string, v: string)
    requires |toks| > 0 && LastGives(toks[1..], i, k, v)
    ensures LastGives(toks, i + 1, k, v)
  {
    forall j | i + 1 < j < |toks| ensures !GivesKey(toks[j], k) { assert toks[1..][j - 1] == toks[j]; }
  }

  lemma KeyAfter(h: Header, tok: string, k: string)
    ensures forall v | IsFieldOf(tok, k, v) :: k in Absorb(h, tok).fields && Absorb(h, tok).fields[k] == v
    ensures !GivesKey(tok, k) ==> (k in Absorb(h, tok).fields <==> k in h.fields) &&
                                  (k in h.fields ==> Absorb(h, tok).fields[k] == h.fields[k])
  {
    FieldsAfter(h, tok);
    if j, v :| IsFieldOf(tok, j, v) { assert Absorb(h, tok).fields == h.fields[j := v]; }
  }

  /** A key has the value its last word gives it, or what it had. */
  lemma {:induction false} FieldsAre(h: Header, toks: seq<string>, k: string)
    ensures var fields := AbsorbAll(h, toks).fields;
            if exists i | 0 <= i < |toks| :: GivesKey(toks[i], k) then
              k in fields && exists i: nat :: LastGives(toks, i, k, fields[k])
            else (k in fields <==> k in h.fields) && (k in h.fields ==> fields[k] == h.fields[k])
    decreases |toks|
  {
    if |toks| > 0 {
      var fields := AbsorbAll(h, toks).fields;
      KeyAfter(h, toks[0], k);
      FieldsAre(Absorb(h, toks[0]), toks[1..], k);
      assert forall i | 0 < i < |toks| :: toks[i] == toks[1..][i - 1];
      if exists i | 0 <= i < |toks| - 1 :: GivesKey(toks[1..][i], k) {
        var i: nat :| LastGives(toks[1..], i, k, fields[k]);
        LaterGives(toks, i, k, fields[k]);
      } else if GivesKey(toks[0], k) {
        var v :| IsFieldOf(toks[0], k, v);
        assert LastGives(toks, 0, k, v);
      }
    }
  }

  lemma {:induction false} ExtrasAreWords(toks: seq<string>)
    requires forall i | 0 <= i < |toks| :: IsToken(toks[i])
    ensures forall i | 0 <= i < |Extras(toks)| :: IsToken(Extras(toks)[i])
  {
    if |toks| > 0 { ExtrasAreWords(toks[1..]); }
  }

  lemma NoteHasAllWords(extra: seq<string>, note: string)
    requires forall i | 0 <= i < |extra| :: IsToken(extra[i])
    ensures Split(NoteOf(extra, note)) == extra + Split(note)
  {
    var left := JoinWords(extra);
    var whole := if left != "" && note != "" then left + " " + note else left + note;
    assert NoteOf(extra, note) == Strip(whole);
    SplitJoin(extra);
    StripKeepsWords(whole);
    if |extra| > 0 { JoinStarts(extra); }
    if left != "" && note != "" {
      SplitAtSpace(left, ' ', note);
    } else if left == "" {
      assert left + note == note;
    } else {
      assert left + note == left;
    }
  }

  /** What is read from any text. Of the words before the first separator the first is the kind, the
      marked ones are the recipients and the references, in order, of the words for one key the last gives
      its value, and all others start the note, in order, before the words after the separator. */
  lemma NothingIsLost(text: string)
    ensures var clean, m := Sanitize(text), Parse(text);
            var cut := Find(clean, " | ");
            var words := Split(if cut < 0 then clean else clean[..cut]);
            var after := if cut < 0 then "" else clean[cut + 3..];
            var rest := if |words| == 0 then [] else words[1..];
            m.kind == (if |words| == 0 then "" else words[0]) &&
            m.to == Names('@', rest) && m.refs == Names('#', rest) &&
            Split(m.note) == Extras(rest) + Split(after) && Trimmed(m.note) &&
            (forall i, k | 0 <= i < |rest| && GivesKey(rest[i], k) :: k in m.fields) &&
            forall k | k in m.fields :: exists i: nat :: LastGives(rest, i, k, m.fields[k])
  {
    var clean := Sanitize(text);
    var words := Split(HeaderText(clean));
    var rest := if |words| == 0 then [] else words[1..];
    var h := AbsorbAll(EMPTY_HEADER, rest);
    WordsAre(EMPTY_HEADER, rest);
    assert h.extra == Extras(rest) && h.to == Names('@', rest) && h.refs == Names('#', rest);
    forall k
      ensures forall i | 0 <= i < |rest| && GivesKey(rest[i], k) :: k in h.fields
      ensures k in h.fields ==> exists i: nat :: LastGives(rest, i, k, h.fields[k])
    {
      FieldsAre(EMPTY_HEADER, rest, k);
    }
    ExtrasAreWords(rest);
    NoteHasAllWords(h.extra, NoteText(clean));
  }

  /** ... and there is no fifth sort of word: what is not marked and no field is kept in the note. */
  lemma EveryWordIsThere(tok: string)
    ensures IsMarked(tok, '@') || IsMarked(tok, '#') || (IsExtra(tok) <==> !exists k :: GivesKey(tok, k))
  {
    if !IsMarked(tok, '@') && !IsMarked(tok, '#') {
      FieldIs(tok);
      if !IsExtra(tok) {
        var eq := Span(tok, 0, NotEquals);
        assert IsFieldOf(tok, tok[..eq], tok[eq + 1..]);
        assert GivesKey(tok, tok[..eq]);
      }
    }
  }

  // ---------- the round trip, exactly ----------

  /** A message the printer accepts comes back as it was exactly when it is canonical. */
  lemma RoundTrip(m: Message)
    requires Encodable(m)
    ensures Parse(Wire(m)) == m <==> Canonical(m)
  {
    ParseIsCanonical(Wire(m));
    if Canonical(m) { CanonicalRoundTrip(m); }
  }

  /** Whatever was read can be printed and read again without change, if it can be printed. */
  lemma ReparseIsStable(text: string)
    ensures Encodable(Parse(text)) ==> Parse(Wire(Parse(text))) == Parse(text)
  {
    ParseIsCanonical(text);
    if Encodable(Parse(text)) { CanonicalRoundTrip(Parse(text)); }
  }

  /** The documented law fails on an accepted message: a key with an equals sign. */
  lemma RoundTripFailsOnEqualsInKey()
    ensures var m := Message("cfg", [], [], map["a=b" := "c"], "");
            Encodable(m) && Parse(Wire(m)) != m
  {
    var m := Message("cfg", [], [], map["a=b" := "c"], "");
    assert '=' in "a=b" by { assert "a=b"[1] == '='; }
    assert "a=b" in m.fields && !CanonicalKey("a=b");
    RoundTrip(m);
  }

  /** Parsing sanitizes first, so text the bus has already cleaned reads the same. */
  lemma ParseOfSanitized(text: string)
    ensures Parse(Sanitize(text)) == Parse(text)
  {
    Idempotent(text, None);
  }

  // ---------- what no field or note can disturb ----------

  lemma {:induction false} RefsOnlyGrow(h: Header, toks: seq<string>)
    ensures h.refs <= AbsorbAll(h, toks).refs
    decreases |toks|
  {
    if |toks| > 0 { RefsOnlyGrow(Absorb(h, toks[0]), toks[1..]); }
  }

  /** The header of a text that starts with two tokens and a space. */
  lemma HeaderStarts(a: string, b: string, rest: string)
    requires IsToken(a) && IsToken(b) && b != "|"
    ensures var toks := Split(HeaderText(a + " " + b + " " + rest));
            |toks| >= 2 && toks[0] == a && toks[1] == b
  {
    var p := a + " " + b;
    var t := p + " " + rest;
    assert JoinWords([a, b]) == p;
    forall i | 0 <= i < |p| ensures !At(t, NOTE_SEP, i) {
      NoBarInHeader([a, b], " " + rest, i);
      assert p + (" " + rest) == t;
    }
    var h := HeaderText(t);
    if |h| == |p| {
      assert h == p;
      SplitFirst(a, b);
      SplitJoin([b]);
    } else {
      assert h == a + " " + (b + " " + h[|p| + 1..]);
      SplitFirst(a, b + " " + h[|p| + 1..]);
      SplitFirst(b, h[|p| + 1..]);
    }
  }

  /** Whatever its fields and note hold, a printed message about one reference is read back with
      its kind and its reference. */
  lemma KindAndRefSurvive(m: Message)
    requires Encodable(m) && Clean(m.kind) && m.to == [] && |m.refs| == 1 && Clean(m.refs[0]) && m.fields != map[]
    ensures Parse(Wire(m)).kind == m.kind
    ensures |Parse(Wire(m)).refs| > 0 && Parse(Wire(m)).refs[0] == m.refs[0]
  {
    var b := "#" + m.refs[0];
    var rest := WireAfterRef(m);
    CleanConcat("#", m.refs[0]);
    CleanConcat(m.kind + " " + b, " ");
    CleanConcat(m.kind + " ", b);
    CleanConcat(m.kind, " ");
    CleanPrefixSurvives(m.kind + " " + b + " ", rest);
    MarkedIsToken('#', m.refs[0]);
    HeaderStarts(m.kind, b, Sanitize(rest));
    var toks := Split(HeaderText(Sanitize(Wire(m))));
    AbsorbRef(EMPTY_HEADER, m.refs[0]);
    RefsOnlyGrow(Absorb(EMPTY_HEADER, b), toks[1..][1..]);
  }

  lemma PartsOfOneRef(m: Message)
    requires m.to == [] && |m.refs| == 1
    ensures Parts(m) == [m.kind, "#" + m.refs[0]] + FieldParts(SortedKeys(m.fields.Keys), m.fields)
  {
    assert Marked('#', m.refs) == ["#" + m.refs[0]];
    assert Marked('@', m.to) == [];
  }

  lemma JoinTwoFirst(a: string, b: string, rest: seq<string>)
    requires |rest| > 0
    ensures JoinWords([a, b] + rest) == a + " " + (b + " " + JoinWords(rest))
  {
    assert ([a, b] + rest)[1..] == [b] + rest && ([b] + rest)[1..] == rest;
  }

  lemma WireAfterRef(m: Message) returns (rest: string)
    requires m.to == [] && |m.refs| == 1 && m.fields != map[]
    ensures Wire(m) == m.kind + " " + ("#" + m.refs[0]) + " " + rest
  {
    var fp := FieldParts(SortedKeys(m.fields.Keys), m.fields);
    var k := SortedKeysStep(m.fields.Keys);
    PartsOfOneRef(m);
    JoinTwoFirst(m.kind, "#" + m.refs[0], fp);
    rest := JoinWords(fp) + if m.note == "" then "" else NOTE_SEP + m.note;
  }

  /** The kind survives in any printed message. */
  lemma KindSurvives(m: Message)
    requires Encodable(m) && Clean(m.kind)
    ensures Parse(Wire(m)).kind == m.kind
  {
    PartsAreTokens(m);
    var w := Wire(m);
    if w == m.kind {
      SplitJoin([m.kind]);
      CleanIsKept(w);
      NoBarAlone(m.kind);
    } else {
      var rest := w[|m.kind| + 1..];
      assert w == m.kind + " " + rest;
      CleanConcat(m.kind, " ");
      CleanPrefixSurvives(m.kind + " ", rest);
      FirstToken(m.kind, Sanitize(rest));
    }
  }

  lemma NoBarAlone(p: string)
    requires IsToken(p)
    ensures HeaderText(p) == p
  {
    forall i | 0 <= i < |p| ensures !At(p, NOTE_SEP, i) {
      NoBarInHeader([p], "", i);
      assert p + "" == p;
    }
  }

  lemma FirstToken(p: string, rest: string)
    requires IsToken(p)
    ensures var toks := Split(HeaderText(p + " " + rest)); |toks| >= 1 && toks[0] == p
  {
    var t := p + " " + rest;
    forall i | 0 <= i < |p| ensures !At(t, NOTE_SEP, i) {
      NoBarInHeader([p], " " + rest, i);
      assert p + (" " + rest) == t;
    }
    var h := HeaderText(t);
    if |h| == |p| {
      assert h == p;
      SplitJoin([p]);
    } else {
      assert h == p + " " + h[|p| + 1..];
      SplitFirst(p, h[|p| + 1..]);
    }
  }

  /** References read from any text can be printed. */
  lemma {:induction false} AbsorbedRefsAreTokens(h: Header, toks: seq<string>)
    requires forall i | 0 <= i < |h.refs| :: IsToken(h.refs[i])
    requires forall i | 0 <= i < |toks| :: IsToken(toks[i])
    ensures forall i | 0 <= i < |AbsorbAll(h, toks).refs| :: IsToken(AbsorbAll(h, toks).refs[i])
    decreases |toks|
  {
    if |toks| > 0 {
      AbsorbedRefsAreTokens(Absorb(h, toks[0]), toks[1..]);
    }
  }

  lemma ParsedRefsAreCleanTokens(text: string)
    ensures forall i | 0 <= i < |Parse(text).refs| :: IsToken(Parse(text).refs[i]) && Clean(Parse(text).refs[i])
  {
    ParseIsCanonical(text);
    var toks := Split(HeaderText(Sanitize(text)));
    if |toks| > 0 { AbsorbedRefsAreTokens(EMPTY_HEADER, toks[1..]); }
  }
}
