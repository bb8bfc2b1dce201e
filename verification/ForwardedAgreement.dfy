/** Where the two readers of the Forwarded header agree, and what both make of a
header that was written out field by field. */
module ForwardedAgreement {
  import opened Wrappers
  import opened Text
  import opened ForwardedHeader

  // ----- Splitting and cutting -----

  lemma {:induction false} SplitWhole(s: string, sep: char)
    requires sep !in s
    ensures Split(s, sep) == [s]
    decreases |s|
  {
    if s != "" {
      SplitWhole(s[1..], sep);
      assert s == [s[0]] + s[1..];
    }
  }

  lemma {:induction false} SplitAfter(a: string, b: string, sep: char)
    requires sep !in a
    ensures Split(a + [sep] + b, sep) == [a] + Split(b, sep)
    decreases |a|
  {
    var s := a + [sep] + b;
    if a == "" {
      assert s[1..] == b;
    } else {
      assert s[1..] == a[1..] + [sep] + b;
      SplitAfter(a[1..], b, sep);
      assert a == [a[0]] + a[1..];
    }
  }

  lemma {:induction false} SplitPrefix(pre: string, s: string, sep: char)
    requires sep !in pre
    ensures Split(pre + s, sep) == [pre + Split(s, sep)[0]] + Split(s, sep)[1..]
    decreases |pre|
  {
    if pre == "" {
      assert pre + s == s && pre + Split(s, sep)[0] == Split(s, sep)[0];
      assert [Split(s, sep)[0]] + Split(s, sep)[1..] == Split(s, sep);
    } else {
      assert (pre + s)[1..] == pre[1..] + s;
      SplitPrefix(pre[1..], s, sep);
      assert pre + Split(s, sep)[0] == [pre[0]] + (pre[1..] + Split(s, sep)[0]);
    }
  }

  function AppendLast(parts: seq<string>, post: string): seq<string>
    requires parts != []
  {
    parts[..|parts| - 1] + [parts[|parts| - 1] + post]
  }

  lemma {:induction false} SplitSuffix(s: string, post: string, sep: char)
    requires sep !in post
    ensures Split(s + post, sep) == AppendLast(Split(s, sep), post)
    decreases |s|
  {
    if s == "" {
      assert s + post == post;
      SplitWhole(post, sep);
    } else {
      assert (s + post)[1..] == s[1..] + post;
      SplitSuffix(s[1..], post, sep);
      AppendLastFirst(s[0], Split(s[1..], sep), post);
    }
  }

  /** Appending to the last part goes together with adding a part, or a character, in front. */
  lemma AppendLastFirst(c: char, rest: seq<string>, post: string)
    requires rest != []
    ensures AppendLast([""] + rest, post) == [""] + AppendLast(rest, post)
    ensures var more := AppendLast(rest, post);
            AppendLast([[c] + rest[0]] + rest[1..], post) == [[c] + more[0]] + more[1..]
  {
    var n, more := |rest| - 1, AppendLast(rest, post);
    assert ([""] + rest)[..n + 1] == [""] + rest[..n];
    if n == 0 {
      assert [c] + (rest[0] + post) == [c] + rest[0] + post;
    } else {
      var longer := [[c] + rest[0]] + rest[1..];
      assert more[0] == rest[0] && more[1..] == rest[1..n] + [rest[n] + post];
      assert longer[..n] == [[c] + rest[0]] + rest[1..n];
    }
  }

  lemma {:induction false} CutAt(key: string, value: string)
    requires '=' !in key
    ensures Cut(key + "=" + value) == Some((key, value))
    decreases |key|
  {
    var part := key + "=" + value;
    if key == "" {
      assert part[1..] == value;
    } else {
      assert part[1..] == key[1..] + "=" + value;
      CutAt(key[1..], value);
      assert key == [key[0]] + key[1..];
    }
  }

  lemma {:induction false} CutSplits(part: string)
    ensures match Cut(part)
            case None => '=' !in part
            case Some((key, value)) => '=' !in key && part == key + "=" + value
    decreases |part|
  {
    if part != "" {
      CutSplits(part[1..]);
      assert part == [part[0]] + part[1..];
    }
  }

  // ----- Spaces around parts do not matter -----

  predicate SamePart(p: string, q: string) {
    match (Cut(p), Cut(q))
    case (None, None) => true
    case (Some((k, v)), Some((l, w))) => TrimSpace(k) == TrimSpace(l) && TrimSpace(v) == TrimSpace(w)
    case _ => false
  }

  predicate SameParts(ps: seq<string>, qs: seq<string>) {
    |ps| == |qs| && forall i :: 0 <= i < |ps| ==> SamePart(ps[i], qs[i])
  }

  lemma PaddedPart(pre: string, p: string, post: string)
    requires Blank(pre) && Blank(post)
    ensures SamePart(pre + p + post, p)
  {
    CutSplits(p);
    match Cut(p) {
      case None =>
        assert '=' !in pre + p + post;
        CutSplits(pre + p + post);
      case Some((key, value)) =>
        assert pre + p + post == (pre + key) + "=" + (value + post);
        CutAt(pre + key, value + post);
        TrimPadding(pre, key, "");
        TrimPadding("", value, post);
        assert pre + key + "" == pre + key && "" + value + post == value + post;
    }
  }

  /** The parts with `pre` ahead of the first and `post` behind the last. */
  function Pad(pre: string, parts: seq<string>, post: string): seq<string>
    requires parts != []
  {
    var more := AppendLast(parts, post);
    [pre + more[0]] + more[1..]
  }

  lemma PadAt(pre: string, parts: seq<string>, post: string, i: nat)
    requires i < |parts|
    ensures |Pad(pre, parts, post)| == |parts|
    ensures Pad(pre, parts, post)[i] ==
            (if i == 0 then pre else "") + parts[i] + (if i == |parts| - 1 then post else "")
  {
    var more := AppendLast(parts, post);
    assert more[i] == parts[i] + if i == |parts| - 1 then post else "";
    assert pre + (parts[0] + post) == pre + parts[0] + post;
  }

  lemma PaddedParts(pre: string, parts: seq<string>, post: string)
    requires parts != [] && Blank(pre) && Blank(post)
    ensures SameParts(Pad(pre, parts, post), parts)
  {
    PadAt(pre, parts, post, 0);
    forall i | 0 <= i < |parts|
      ensures SamePart(Pad(pre, parts, post)[i], parts[i])
    {
      PadAt(pre, parts, post, i);
      PaddedPart(if i == 0 then pre else "", parts[i], if i == |parts| - 1 then post else "");
    }
  }

  lemma PaddedHeader(s: string)
    ensures SameParts(Split(s, ';'), Split(TrimSpace(s), ';'))
  {
    var pre, post := TrimSplits(s);
    var core := TrimSpace(s);
    assert ';' !in pre && ';' !in post;
    assert s == pre + (core + post);
    SplitSuffix(core, post, ';');
    SplitPrefix(pre, core + post, ';');
    PaddedParts(pre, Split(core, ';'), post);
  }

  lemma {:induction false} SameFirstMatch(ps: seq<string>, qs: seq<string>, name: string)
    requires SameParts(ps, qs)
    ensures FirstMatch(ps, name) == FirstMatch(qs, name)
    decreases |ps|
  {
    if ps != [] {
      assert SamePart(ps[0], qs[0]);
      assert SameParts(ps[1..], qs[1..]);
      SameFirstMatch(ps[1..], qs[1..], name);
    }
  }

  // ----- Values -----

  lemma UnquotedStays(s: string)
    requires '"' !in s
    ensures TrimQuotes(s) == s
  {
  }

  /** A value the strict reader takes is read the same by the permissive one. */
  lemma ValuesAgree(raw: string)
    requires StrictValue(raw).Some?
    ensures PermissiveValue(raw) == StrictValue(raw).value
  {
    var value := TrimSpace(raw);
    if value[0] == '"' {
      var inner := value[1..|value| - 1];
      UnquotedStays(inner);
      assert value[1..][..|value| - 2] == inner;
      assert value[1..][0] == inner[0];
      assert TrimQuotes(value[1..]) == TrimQuotes(inner);
    } else {
      UnquotedStays(value);
    }
  }

  // ----- Agreement -----

  /** No key of the header is spelled with a long s. */
  predicate PlainKeys(parts: seq<string>) {
    forall p :: p in parts && Cut(p).Some? ==> LONG_S !in TrimSpace(Cut(p).value.0)
  }

  lemma {:induction false} StrictProtoIsFirst(f: Fields, parts: seq<string>)
    requires StrictParts(f, parts).Some?
    ensures var f' := StrictParts(f, parts).value;
            f'.proto == if f.proto.Some? then f.proto else FirstMatch(parts, PROTO)
    decreases |parts|
  {
    if parts != [] {
      StrictProtoIsFirst(StrictPart(f, parts[0]).value, parts[1..]);
      var (key, value) := Cut(parts[0]).value;
      if StrictValue(value).Some? {
        ValuesAgree(value);
      }
    }
  }

  /** The value of a part, ahead of the host field, whose key folds to `host` but is not lowered to it. */
  function Impostor(parts: seq<string>): Option<string> {
    if parts == [] then None
    else
      match Cut(parts[0])
      case None => Impostor(parts[1..])
      case Some((key, value)) =>
        if LowersTo(TrimSpace(key), HOST) then None
        else if FoldsTo(TrimSpace(key), HOST) then Some(PermissiveValue(value))
        else Impostor(parts[1..])
  }

  lemma {:induction false} PlainKeysNoImpostor(parts: seq<string>)
    requires PlainKeys(parts)
    ensures Impostor(parts).None?
    decreases |parts|
  {
    if parts != [] {
      assert parts[0] in parts;
      assert forall p :: p in parts[1..] ==> p in parts;
      PlainKeysNoImpostor(parts[1..]);
    }
  }

  lemma {:induction false} StrictHostIsFirst(f: Fields, parts: seq<string>)
    requires StrictParts(f, parts).Some? && f.host.None? && StrictParts(f, parts).value.host.Some?
    ensures FirstMatch(parts, HOST) ==
            if Impostor(parts).Some? then Impostor(parts) else StrictParts(f, parts).value.host
    decreases |parts|
  {
    var (key, value) := Cut(parts[0]).value;
    KeysNeverBoth(TrimSpace(key));
    if LowersTo(TrimSpace(key), HOST) {
      ValuesAgree(value);
      HostStays(StrictPart(f, parts[0]).value, parts[1..]);
    } else {
      StrictHostIsFirst(StrictPart(f, parts[0]).value, parts[1..]);
    }
  }

  lemma {:induction false} HostStays(f: Fields, parts: seq<string>)
    requires StrictParts(f, parts).Some? && f.host.Some?
    ensures StrictParts(f, parts).value.host == f.host
    decreases |parts|
  {
    if parts != [] {
      HostStays(StrictPart(f, parts[0]).value, parts[1..]);
    }
  }

  lemma KeysNeverBoth(key: string)
    ensures !(LowersTo(key, PROTO) && LowersTo(key, HOST))
  {
  }

  lemma CommaFree(raw: string, name: string)
    requires ',' !in raw
    ensures var first := FirstMatch(Split(raw, ';'), name);
            PermissiveField(raw, name) == if first.Some? then first.value else ""
  {
    SplitWhole(raw, ',');
    assert FirstEntry(Split(raw, ',')[1..], name) == "";
  }

  /** Whatever header the strict reader extracts from, the permissive reader finds the same proto; and
      the same host exactly if no part ahead of the host field passes for it with another value. */
  lemma ReadersAgree(raw: string)
    requires ',' !in raw && StrictFields(raw).Some?
    ensures PermissiveField(raw, PROTO) == StrictFields(raw).value.0
    ensures var impostor := Impostor(Split(TrimSpace(raw), ';'));
            PermissiveField(raw, HOST) == StrictFields(raw).value.1 <==>
            impostor.None? || impostor.value == StrictFields(raw).value.1
  {
    var parts := Split(TrimSpace(raw), ';');
    PaddedHeader(raw);
    SameFirstMatch(Split(raw, ';'), parts, PROTO);
    SameFirstMatch(Split(raw, ';'), parts, HOST);
    CommaFree(raw, PROTO);
    CommaFree(raw, HOST);
    StrictProtoIsFirst(Fields(None, None), parts);
    StrictHostIsFirst(Fields(None, None), parts);
  }

  // ----- ASCII headers -----

  lemma {:induction false} SplitKeepsOut(s: string, sep: char, c: char, p: string)
    requires c !in s && p in Split(s, sep)
    ensures c !in p
    decreases |s|
  {
    if s != "" {
      var rest := Split(s[1..], sep);
      if p in rest {
        SplitKeepsOut(s[1..], sep, c, p);
      } else {
        SplitKeepsOut(s[1..], sep, c, rest[0]);
      }
    }
  }

  lemma TrimKeepsOut(s: string, c: char)
    requires c !in s
    ensures c !in TrimSpace(s)
  {
    var pre, post := TrimSplits(s);
    forall x | x in TrimSpace(s)
      ensures x in s
    {
      assert x in pre + TrimSpace(s) + post;
    }
  }

  lemma PlainWithoutLongS(s: string)
    requires LONG_S !in s
    ensures PlainKeys(Split(TrimSpace(s), ';'))
  {
    TrimKeepsOut(s, LONG_S);
    var parts := Split(TrimSpace(s), ';');
    forall p | p in parts && Cut(p).Some?
      ensures LONG_S !in TrimSpace(Cut(p).value.0)
    {
      SplitKeepsOut(TrimSpace(s), ';', LONG_S, p);
      CutSplits(p);
      var (key, value) := Cut(p).value;
      assert forall c :: c in key ==> c in p;
      TrimKeepsOut(key, LONG_S);
    }
  }

  /** On ASCII headers without a comma the readers agree on both fields. */
  lemma ReadersAgreeOnAscii(raw: string)
    requires forall c :: c in raw ==> c < '\U{0080}' && c != ','
    requires StrictFields(raw).Some?
    ensures (PermissiveField(raw, PROTO), PermissiveField(raw, HOST)) == StrictFields(raw).value
  {
    PlainWithoutLongS(raw);
    PlainKeysNoImpostor(Split(TrimSpace(raw), ';'));
    ReadersAgree(raw);
  }

  // ----- Headers written out -----

  function Quoted(v: string, quote: bool): string {
    if quote then "\"" + v + "\"" else v
  }

  function Field(name: string, v: string, quote: bool): string {
    name + "=" + Quoted(v, quote)
  }

  /** `quoteS` and `quoteH` say which of the two is quoted. */
  function Print(s: string, h: string, quoteS: bool, quoteH: bool): string {
    Field(PROTO, s, quoteS) + [';'] + Field(HOST, h, quoteH)
  }

  predicate Legal(v: string, quote: bool) {
    && v != "" && ';' !in v && ',' !in v && '"' !in v
    && (if quote then '\\' !in v else Tight(v))
  }

  lemma TrimTight(s: string)
    requires Tight(s)
    ensures TrimSpace(s) == s
  {
    TrimCore("", s, "");
    assert "" + s + "" == s;
  }

  lemma StrictReadsQuoted(v: string, quote: bool)
    requires Legal(v, quote)
    ensures StrictValue(Quoted(v, quote)) == Some(v)
    ensures Quoted(v, quote) != "" && Tight(Quoted(v, quote))
    ensures ';' !in Quoted(v, quote) && ',' !in Quoted(v, quote)
  {
    var q := Quoted(v, quote);
    TrimTight(q);
    if quote {
      assert q[1..|q| - 1] == v;
    }
  }

  /** A name that can stand as a key: not empty, no space at the ends, no separator in it. */
  predicate PlainName(name: string) {
    name != "" && Tight(name) && ';' !in name && ',' !in name && '=' !in name
  }

  lemma FieldParts(name: string, v: string, quote: bool)
    requires Legal(v, quote) && PlainName(name)
    ensures var f := Field(name, v, quote);
            && Cut(f) == Some((name, Quoted(v, quote))) && TrimSpace(name) == name
            && ';' !in f && ',' !in f && f != "" && Tight(f)
  {
    StrictReadsQuoted(v, quote);
    CutAt(name, Quoted(v, quote));
    TrimTight(name);
    var f := Field(name, v, quote);
    assert f[0] == name[0] && f[|f| - 1] == Quoted(v, quote)[|Quoted(v, quote)| - 1];
  }

  lemma NamesArePlain()
    ensures PlainName(PROTO) && LowersTo(PROTO, PROTO) && LONG_S !in PROTO
    ensures PlainName(HOST) && LowersTo(HOST, HOST) && LONG_S !in HOST
  {
  }

  /** Two tight texts joined by a semicolon make a tight header of two parts. */
  lemma JoinedParts(a: string, b: string, parts: seq<string>)
    requires a != "" && b != "" && Tight(a) && Tight(b) && ';' !in a && parts == Split(b, ';')
    ensures var joined := a + [';'] + b;
            Tight(joined) && TrimSpace(joined) == joined && Split(joined, ';') == [a] + parts
  {
    var joined := a + [';'] + b;
    assert joined[0] == a[0] && joined[|joined| - 1] == b[|b| - 1];
    TrimTight(joined);
    SplitAfter(a, b, ';');
  }

  lemma PrintParts(s: string, h: string, quoteS: bool, quoteH: bool)
    requires Legal(s, quoteS) && Legal(h, quoteH)
    ensures var p, q := Field(PROTO, s, quoteS), Field(HOST, h, quoteH);
            var raw := Print(s, h, quoteS, quoteH);
            && Split(raw, ';') == [p, q] && TrimSpace(raw) == raw && Tight(raw) && raw != "" && ',' !in raw
            && Cut(p) == Some((PROTO, Quoted(s, quoteS))) && Cut(q) == Some((HOST, Quoted(h, quoteH)))
            && TrimSpace(PROTO) == PROTO && TrimSpace(HOST) == HOST
  {
    NamesArePlain();
    FieldParts(PROTO, s, quoteS);
    FieldParts(HOST, h, quoteH);
    SplitWhole(Field(HOST, h, quoteH), ';');
    JoinedParts(Field(PROTO, s, quoteS), Field(HOST, h, quoteH), [Field(HOST, h, quoteH)]);
  }

  lemma StrictOnTwo(p: string, q: string, a: string, b: string)
    requires Cut(p) == Some((PROTO, a)) && Cut(q) == Some((HOST, b))
    requires TrimSpace(PROTO) == PROTO && TrimSpace(HOST) == HOST
    requires StrictValue(a).Some? && StrictValue(b).Some?
    ensures StrictParts(Fields(None, None), [p, q]) == Some(Fields(StrictValue(a), StrictValue(b)))
    ensures PlainKeys([p, q])
  {
    NamesArePlain();
    KeysNeverBoth(HOST);
    var none, one, two := Fields(None, None), Fields(StrictValue(a), None), Fields(StrictValue(a), StrictValue(b));
    assert StrictPart(none, p) == Some(one) && StrictPart(one, q) == Some(two);
    assert [p, q][1..] == [q] && [q][1..] == [];
    assert StrictParts(two, []) == Some(two);
    assert StrictParts(one, [q]) == Some(two);
  }

  /** A header written from a proto and a host, each plain or quoted, is read back by both readers. */
  lemma PrintRoundTrip(s: string, h: string, quoteS: bool, quoteH: bool)
    requires Legal(s, quoteS) && Legal(h, quoteH)
    ensures StrictFields(Print(s, h, quoteS, quoteH)) == Some((s, h))
    ensures PermissiveField(Print(s, h, quoteS, quoteH), PROTO) == s
    ensures PermissiveField(Print(s, h, quoteS, quoteH), HOST) == h
  {
    PrintParts(s, h, quoteS, quoteH);
    StrictReadsQuoted(s, quoteS);
    StrictReadsQuoted(h, quoteH);
    StrictOnTwo(Field(PROTO, s, quoteS), Field(HOST, h, quoteH), Quoted(s, quoteS), Quoted(h, quoteH));
    PlainKeysNoImpostor(Split(Print(s, h, quoteS, quoteH), ';'));
    ReadersAgree(Print(s, h, quoteS, quoteH));
  }

  function LongSKey(): string {
    ['h', 'o', LONG_S, 't']
  }

  lemma LongSKeyFolds()
    ensures PlainName(LongSKey()) && FoldsTo(LongSKey(), HOST)
    ensures !LowersTo(LongSKey(), HOST) && !LowersTo(LongSKey(), PROTO)
  {
    assert ToLower(LongSKey())[2] != HOST[2];
  }

  /** The premise on keys is needed: a first part whose key is `host` with a long s is skipped by the
      strict reader and taken by the permissive one. */
  lemma LongSDiffers(other: string, s: string, h: string)
    requires Legal(other, false) && Legal(s, false) && Legal(h, false)
    ensures var raw := Field(LongSKey(), other, false) + [';'] + Print(s, h, false, false);
            StrictFields(raw) == Some((s, h)) && PermissiveField(raw, HOST) == other
  {
    var first, rest := Field(LongSKey(), other, false), Print(s, h, false, false);
    var raw := first + [';'] + rest;
    var parts := [first] + Split(rest, ';');
    LongSKeyFolds();
    FieldParts(LongSKey(), other, false);
    PrintParts(s, h, false, false);
    PrintRoundTrip(s, h, false, false);
    JoinedParts(first, rest, Split(rest, ';'));
    assert parts[0] == first && parts[1..] == Split(rest, ';');
    assert StrictPart(Fields(None, None), first) == Some(Fields(None, None));
    assert StrictParts(Fields(None, None), parts) == StrictParts(Fields(None, None), Split(rest, ';'));
    CommaFree(raw, HOST);
    StrictReadsQuoted(other, false);
    ValuesAgree(other);
    assert FirstMatch(parts, HOST) == Some(other);
  }
}
