/** Exactly which Forwarded headers the strict reader takes, and exactly which part
the permissive one does. */
module ForwardedExactly {
  import opened Wrappers
  import opened Text
  import opened ForwardedHeader
  import opened ForwardedAgreement

  // ----- Text -----

  function Join(parts: seq<string>, sep: char): string
    requires parts != []
  {
    if |parts| == 1 then parts[0] else parts[0] + [sep] + Join(parts[1..], sep)
  }

  /** Splitting is undone by joining, and leaves no separator in a part. */
  lemma {:induction false} SplitJoins(s: string, sep: char)
    ensures Join(Split(s, sep), sep) == s
    ensures forall p :: p in Split(s, sep) ==> sep !in p
    decreases |s|
  {
    if s != "" {
      SplitJoins(s[1..], sep);
      assert s == [s[0]] + s[1..];
      var rest := Split(s[1..], sep);
      if s[0] == sep {
        assert ([""] + rest)[1..] == rest;
      } else {
        JoinLonger(s[0], rest, sep);
      }
    }
  }

  lemma JoinLonger(c: char, rest: seq<string>, sep: char)
    requires rest != []
    ensures Join([[c] + rest[0]] + rest[1..], sep) == [c] + Join(rest, sep)
  {
    var longer := [[c] + rest[0]] + rest[1..];
    assert longer[1..] == rest[1..];
  }

  function Capital(c: char): char
    requires 'a' <= c <= 'z'
  {
    (c as int - 32) as char
  }

  /** A key is `proto` or `host` to the strict reader exactly if each letter is that letter or its capital. */
  lemma AnyCase(key: string, name: string)
    requires name == PROTO || name == HOST
    ensures LowersTo(key, name) <==>
            |key| == |name| && forall i :: 0 <= i < |name| ==> key[i] == name[i] || key[i] == Capital(name[i])
  {
    forall i | 0 <= i < |name| && |key| == |name|
      ensures ToLower(key)[i] == name[i] <==> key[i] == name[i] || key[i] == Capital(name[i])
    {
      LowerExactly(key[i], name[i]);
    }
  }

  lemma LowerExactly(c: char, small: char)
    requires 'a' <= small <= 'z' && small != 'i' && small != 'k'
    ensures LowerChar(c) == small <==> c == small || c == Capital(small)
  {
  }

  /** To the permissive reader a long s is an s as well. */
  lemma AnyCaseOrLongS(key: string, name: string)
    requires name == PROTO || name == HOST
    ensures FoldsTo(key, name) <==>
            && |key| == |name|
            && forall i :: 0 <= i < |name| ==>
                 key[i] == name[i] || key[i] == Capital(name[i]) || (name[i] == 's' && key[i] == '\U{017F}')
  {
    forall i | 0 <= i < |name| && |key| == |name|
      ensures LowerChar(key[i]) == name[i] <==> key[i] == name[i] || key[i] == Capital(name[i])
    {
      LowerExactly(key[i], name[i]);
    }
  }

  // ----- Values -----

  predicate Quotes(s: string) {
    forall i :: 0 <= i < |s| ==> s[i] == '"'
  }

  lemma {:induction false} QuotesBehind(core: string, post: string)
    requires Quotes(post) && (core != "" ==> core[0] != '"' && core[|core| - 1] != '"')
    ensures TrimQuotes(core + post) == core
    decreases |post|
  {
    var s := core + post;
    if post == "" {
      assert s == core;
    } else if core == "" {
      assert s == post && s[1..] == core + post[1..];
      QuotesBehind(core, post[1..]);
    } else {
      var n := |post| - 1;
      assert s[|s| - 1] == post[n] && s[..|s| - 1] == core + post[..n];
      QuotesBehind(core, post[..n]);
    }
  }

  /** The permissive reader's value is what is left without spaces and then without quotes around it. */
  lemma {:induction false} PermissiveValueExactly(raw: string, pre: string, core: string, post: string)
    requires TrimSpace(raw) == pre + core + post && Quotes(pre) && Quotes(post)
    requires core != "" ==> core[0] != '"' && core[|core| - 1] != '"'
    ensures PermissiveValue(raw) == core
  {
    QuotesAhead(pre, core, post);
  }

  lemma {:induction false} QuotesAhead(pre: string, core: string, post: string)
    requires Quotes(pre) && Quotes(post) && (core != "" ==> core[0] != '"' && core[|core| - 1] != '"')
    ensures TrimQuotes(pre + core + post) == core
    decreases |pre|
  {
    if pre == "" {
      assert pre + core + post == core + post;
      QuotesBehind(core, post);
    } else {
      var s := pre + core + post;
      assert s[0] == pre[0] && s[1..] == pre[1..] + core + post;
      QuotesAhead(pre[1..], core, post);
    }
  }

  /** A value is taken exactly if, spaces aside, it is a text without quotes, or one in quotes that has
      neither quotes nor backslashes; in both cases a text that is not empty. */
  lemma StrictValueExactly(raw: string, v: string)
    ensures StrictValue(raw) == Some(v) <==>
            && v != "" && '"' !in v
            && (TrimSpace(raw) == v || (TrimSpace(raw) == "\"" + v + "\"" && '\\' !in v))
  {
    var value := TrimSpace(raw);
    if value == "\"" + v + "\"" {
      assert value[0] == '"' && value[|value| - 1] == '"' && value[1..|value| - 1] == v;
    }
    if |value| >= 2 && value[0] == '"' && value[|value| - 1] == '"' {
      assert value == "\"" + value[1..|value| - 1] + "\"";
    }
    assert value != "" && '"' !in value ==> value[0] != '"';
  }

  // ----- Headers -----

  /** The part's key, spaces and case aside, is `name`. */
  predicate IsField(part: string, name: string) {
    Cut(part).Some? && LowersTo(TrimSpace(Cut(part).value.0), name)
  }

  predicate AllCut(parts: seq<string>) {
    forall p :: p in parts ==> '=' in p
  }

  /** The field comes exactly once, at `i`, with value `v`. */
  predicate OnceAt(parts: seq<string>, name: string, i: int, v: string) {
    && 0 <= i < |parts|
    && (forall j :: 0 <= j < |parts| ==> (IsField(parts[j], name) <==> j == i))
    && StrictValue(Cut(parts[i]).value.1) == Some(v)
  }

  lemma HasEquals(part: string)
    ensures Cut(part).Some? <==> '=' in part
  {
    CutSplits(part);
  }

  /** What the strict reader makes of one part. */
  lemma PartExactly(f: Fields, part: string)
    ensures var f', value := StrictPart(f, part), if Cut(part).Some? then StrictValue(Cut(part).value.1) else None;
            && (f'.Some? <==>
                  && '=' in part
                  && (IsField(part, PROTO) ==> f.proto.None? && value.Some?)
                  && (IsField(part, HOST) ==> f.host.None? && value.Some?))
            && (f'.Some? ==> f'.value == Fields(if IsField(part, PROTO) then value else f.proto,
                                                if IsField(part, HOST) then value else f.host))
  {
    HasEquals(part);
    if Cut(part).Some? {
      KeysNeverBoth(TrimSpace(Cut(part).value.0));
    }
  }

  /** One field's slot over the parts: filled at most once, and only by a value. */
  function Slot(found: Option<string>, parts: seq<string>, name: string): Option<Option<string>>
    decreases |parts|
  {
    if parts == [] then Some(found)
    else if !IsField(parts[0], name) then Slot(found, parts[1..], name)
    else
      var value := StrictValue(Cut(parts[0]).value.1);
      if found.Some? || value.None? then None else Slot(value, parts[1..], name)
  }

  /** The strict reader fills both slots, independently, and wants a `=` in every part. */
  lemma {:induction false} PartsExactly(f: Fields, parts: seq<string>)
    ensures var proto, host := Slot(f.proto, parts, PROTO), Slot(f.host, parts, HOST);
            StrictParts(f, parts) == if AllCut(parts) && proto.Some? && host.Some?
                                     then Some(Fields(proto.value, host.value)) else None
    decreases |parts|
  {
    if parts != [] {
      PartExactly(f, parts[0]);
      AllCutCons(parts);
      var f' := StrictPart(f, parts[0]);
      if f'.Some? {
        PartsExactly(f'.value, parts[1..]);
      }
    }
  }

  lemma AllCutCons(parts: seq<string>)
    requires parts != []
    ensures AllCut(parts) <==> '=' in parts[0] && AllCut(parts[1..])
  {
    assert forall p :: p in parts <==> p == parts[0] || p in parts[1..];
  }

  /** A slot that is filled stays filled exactly if the field does not come again. */
  lemma {:induction false} FilledSlot(v: string, parts: seq<string>, name: string)
    ensures Slot(Some(v), parts, name) ==
            if (forall i :: 0 <= i < |parts| ==> !IsField(parts[i], name)) then Some(Some(v)) else None
    decreases |parts|
  {
    if parts != [] {
      FilledSlot(v, parts[1..], name);
      assert forall i :: 0 < i < |parts| ==> parts[i] == parts[1..][i - 1];
      assert forall i :: 0 <= i < |parts| - 1 ==> parts[1..][i] == parts[i + 1];
    }
  }

  /** An empty slot ends up with `v` exactly if the field comes once, with that value. */
  lemma {:induction false} EmptySlot(parts: seq<string>, name: string, v: string)
    ensures Slot(None, parts, name) == Some(Some(v)) <==> exists i :: OnceAt(parts, name, i, v)
    decreases |parts|
  {
    if parts != [] {
      if IsField(parts[0], name) {
        FirstFills(parts, name, v);
      } else {
        EmptySlot(parts[1..], name, v);
        LaterFills(parts, name, v);
      }
    }
  }

  lemma FirstFills(parts: seq<string>, name: string, v: string)
    requires parts != [] && IsField(parts[0], name)
    ensures Slot(None, parts, name) == Some(Some(v)) <==> exists i :: OnceAt(parts, name, i, v)
  {
    var value := StrictValue(Cut(parts[0]).value.1);
    if value.Some? {
      FilledSlot(value.value, parts[1..], name);
    }
    assert forall i :: 0 <= i < |parts| - 1 ==> parts[1..][i] == parts[i + 1];
    if Slot(None, parts, name) == Some(Some(v)) {
      forall j | 0 <= j < |parts|
        ensures IsField(parts[j], name) <==> j == 0
      {
        if j > 0 {
          assert parts[j] == parts[1..][j - 1];
        }
      }
      assert OnceAt(parts, name, 0, v);
    }
    if i :| OnceAt(parts, name, i, v) {
      assert i == 0;
    }
  }

  lemma LaterFills(parts: seq<string>, name: string, v: string)
    requires parts != [] && !IsField(parts[0], name)
    ensures (exists i :: OnceAt(parts, name, i, v)) <==> exists i :: OnceAt(parts[1..], name, i, v)
  {
    forall i
      ensures OnceAt(parts, name, i + 1, v) <==> OnceAt(parts[1..], name, i, v)
    {
      OnceAtNext(parts, name, i, v);
    }
    if i :| OnceAt(parts, name, i, v) {
      OnceAtNext(parts, name, i - 1, v);
    }
    if i :| OnceAt(parts[1..], name, i, v) {
      OnceAtNext(parts, name, i, v);
    }
  }

  lemma OnceAtNext(parts: seq<string>, name: string, i: int, v: string)
    requires parts != [] && !IsField(parts[0], name)
    ensures OnceAt(parts, name, i + 1, v) <==> OnceAt(parts[1..], name, i, v)
  {
    var rest := parts[1..];
    assert forall j :: 0 <= j < |rest| ==> rest[j] == parts[j + 1];
    if OnceAt(rest, name, i, v) {
      forall j | 0 <= j < |parts|
        ensures IsField(parts[j], name) <==> j == i + 1
      {
        if j > 0 {
          assert parts[j] == rest[j - 1];
        }
      }
    }
  }

  /** The strict reader extracts `s` and `h` exactly if every part has a `=`, proto comes once with value
      `s`, and host comes once with value `h`; a repeated, missing or malformed field is refused. */
  lemma StrictExactly(raw: string, s: string, h: string)
    ensures var parts := Split(TrimSpace(raw), ';');
            StrictFields(raw) == Some((s, h)) <==>
            && AllCut(parts)
            && (exists i :: OnceAt(parts, PROTO, i, s))
            && (exists i :: OnceAt(parts, HOST, i, h))
  {
    var parts := Split(TrimSpace(raw), ';');
    PartsExactly(Fields(None, None), parts);
    EmptySlot(parts, PROTO, s);
    EmptySlot(parts, HOST, h);
  }

  // ----- The permissive reader -----

  /** The parts of all entries, in reading order. */
  function AllParts(entries: seq<string>): seq<string> {
    if entries == [] then [] else Split(entries[0], ';') + AllParts(entries[1..])
  }

  lemma {:induction false} FirstMatchAppend(a: seq<string>, b: seq<string>, name: string)
    ensures FirstMatch(a + b, name) == if FirstMatch(a, name).Some? then FirstMatch(a, name) else FirstMatch(b, name)
    decreases |a|
  {
    if a == [] {
      assert a + b == b;
    } else {
      assert (a + b)[1..] == a[1..] + b;
      FirstMatchAppend(a[1..], b, name);
    }
  }

  lemma {:induction false} FirstEntryIsFirst(entries: seq<string>, name: string)
    ensures var first := FirstMatch(AllParts(entries), name);
            FirstEntry(entries, name) == if first.Some? then first.value else ""
    decreases |entries|
  {
    if entries != [] {
      FirstEntryIsFirst(entries[1..], name);
      FirstMatchAppend(Split(entries[0], ';'), AllParts(entries[1..]), name);
    }
  }

  /** `i` is the first part whose key matches. */
  predicate FirstAt(parts: seq<string>, name: string, i: int) {
    && 0 <= i < |parts| && PermissiveMatch(parts[i], name)
    && forall j :: 0 <= j < i ==> !PermissiveMatch(parts[j], name)
  }

  lemma {:induction false} FirstMatchAt(parts: seq<string>, name: string, i: int)
    requires FirstAt(parts, name, i)
    ensures FirstMatch(parts, name) == Some(PermissiveValue(Cut(parts[i]).value.1))
    decreases |parts|
  {
    if i > 0 {
      assert forall j :: 0 <= j < i - 1 ==> parts[1..][j] == parts[j + 1];
      FirstMatchAt(parts[1..], name, i - 1);
    }
  }

  lemma {:induction false} NoMatch(parts: seq<string>, name: string)
    requires forall p :: p in parts ==> !PermissiveMatch(p, name)
    ensures FirstMatch(parts, name).None?
    decreases |parts|
  {
    if parts != [] {
      assert parts[0] in parts;
      NoMatch(parts[1..], name);
    }
  }

  /** The permissive reader returns the value of the first matching part of the first entry that has one,
      and nothing if no part matches. */
  lemma PermissiveExactly(raw: string, name: string)
    ensures var parts := AllParts(Split(raw, ','));
            && (forall i :: FirstAt(parts, name, i) ==>
                  PermissiveField(raw, name) == PermissiveValue(Cut(parts[i]).value.1))
            && ((forall p :: p in parts ==> !PermissiveMatch(p, name)) ==> PermissiveField(raw, name) == "")
  {
    var parts := AllParts(Split(raw, ','));
    FirstEntryIsFirst(Split(raw, ','), name);
    forall i | FirstAt(parts, name, i)
      ensures PermissiveField(raw, name) == PermissiveValue(Cut(parts[i]).value.1)
    {
      FirstMatchAt(parts, name, i);
    }
    if forall p :: p in parts ==> !PermissiveMatch(p, name) {
      NoMatch(parts, name);
    }
  }
}
