/** Which of an agent's interfaces a poll reports: the first of each valid name,
up to the limit. */
module NetworkReports {
  import opened Collections
  import opened NetworkRates
  import opened Text
  import opened Wrappers

  // ----- Which interfaces count -----

  /** The interface's name, spaces aside, is `tag`, and `tag` is a valid label. */
  predicate Named(iface: Interface, tag: string) {
    TrimSpace(iface.name) == tag && tag != "" && Utf8Length(tag) <= 128 && '\0' !in tag
  }

  lemma LabelIsName(iface: Interface, tag: string)
    ensures Label(iface.name) == Some(tag) <==> Named(iface, tag)
  {
  }

  /** A text has at least as many bytes as characters, at most four times as many, and as many exactly if
      it is ASCII. */
  lemma {:induction false} Utf8Bounds(s: string)
    ensures |s| <= Utf8Length(s) <= 4 * |s|
    ensures Utf8Length(s) == |s| <==> Ascii(s)
    decreases |s|
  {
    if s != "" {
      Utf8Bounds(s[1..]);
      AsciiCons(s);
    }
  }

  predicate Ascii(s: string) {
    forall i :: 0 <= i < |s| ==> s[i] as int < 0x80
  }

  lemma AsciiCons(s: string)
    requires s != ""
    ensures Ascii(s) <==> s[0] as int < 0x80 && Ascii(s[1..])
  {
    assert forall i :: 0 < i < |s| ==> s[i] == s[1..][i - 1];
  }

  /** The valid labels among the interfaces. */
  function Tags(ifaces: seq<Interface>): set<string> {
    set iface | iface in ifaces && Named(iface, TrimSpace(iface.name)) :: TrimSpace(iface.name)
  }

  predicate Unnamed(ifaces: seq<Interface>, tag: string) {
    forall iface :: iface in ifaces ==> !Named(iface, tag)
  }

  /** `ifaces[i]` is the first interface with label `tag`, and fewer than the limit of other labels come
      before it or are in `seen`. */
  predicate FirstNamed(ifaces: seq<Interface>, seen: set<string>, tag: string, i: int) {
    && 0 <= i < |ifaces| && Named(ifaces[i], tag)
    && Unnamed(ifaces[..i], tag)
    && |seen + Tags(ifaces[..i])| < 128
  }

  lemma TagsCons(ifaces: seq<Interface>, i: nat)
    requires 0 < i <= |ifaces|
    ensures Tags(ifaces[..i]) == Tags([ifaces[0]]) + Tags(ifaces[1..][..i - 1])
  {
    assert ifaces[..i] == [ifaces[0]] + ifaces[1..][..i - 1];
  }

  lemma TagsOfOne(iface: Interface)
    ensures Tags([iface]) == if Label(iface.name).Some? then {Label(iface.name).value} else {}
  {
    assert iface in [iface];
  }

  lemma UnnamedCons(ifaces: seq<Interface>, tag: string, i: nat)
    requires 0 < i <= |ifaces|
    ensures Unnamed(ifaces[..i], tag) <==> !Named(ifaces[0], tag) && Unnamed(ifaces[1..][..i - 1], tag)
  {
    var all, rest := ifaces[..i], ifaces[1..][..i - 1];
    assert all == [ifaces[0]] + rest;
    assert forall iface :: iface in all <==> iface == ifaces[0] || iface in rest;
  }

  /** Moving on by one interface, seen or not a label, or newly seen. */
  lemma FirstNamedNext(ifaces: seq<Interface>, seen: set<string>, tag: string, i: int)
    requires ifaces != [] && 0 < i && !Named(ifaces[0], tag)
    ensures var seen' := seen + Tags([ifaces[0]]);
            FirstNamed(ifaces, seen, tag, i) <==> FirstNamed(ifaces[1..], seen', tag, i - 1)
  {
    if i < |ifaces| {
      TagsCons(ifaces, i);
      UnnamedCons(ifaces, tag, i);
      assert seen + Tags(ifaces[..i]) == seen + Tags([ifaces[0]]) + Tags(ifaces[1..][..i - 1]);
    }
  }

  lemma SkipLabel(ifaces: seq<Interface>, seen: set<string>, tag: string)
    requires ifaces != [] && !Named(ifaces[0], tag)
    ensures var first, seen' := Label(ifaces[0].name), seen + Tags([ifaces[0]]);
            && (first.None? || first.value in seen ==>
                  seen' == seen && Reports(ifaces, seen) == Reports(ifaces[1..], seen))
            && (first.Some? && first.value !in seen && |seen| < 128 ==>
                  && FindLabel(Reports(ifaces, seen), tag) == FindLabel(Reports(ifaces[1..], seen'), tag)
                  && seen' == seen + {first.value})
            && (first.Some? && first.value !in seen && |seen| >= 128 ==> Reports(ifaces, seen) == [])
  {
    var first := Label(ifaces[0].name);
    TagsOfOne(ifaces[0]);
    LabelIsName(ifaces[0], tag);
    if first.Some? && first.value !in seen && |seen| < 128 {
      var reports := Reports(ifaces, seen);
      assert reports[0].tag == first.value != tag && reports[1..] == Reports(ifaces[1..], seen + {first.value});
    }
  }

  lemma TagBefore(ifaces: seq<Interface>, seen: set<string>, i: nat)
    requires 0 < i <= |ifaces|
    ensures |seen| <= |seen + Tags(ifaces[..i])|
    ensures Label(ifaces[0].name).Some? ==> Label(ifaces[0].name).value in Tags(ifaces[..i])
  {
    TagsCons(ifaces, i);
    TagsOfOne(ifaces[0]);
    SubsetSize(seen, seen + Tags(ifaces[..i]));
  }

  lemma HeadIsReported(ifaces: seq<Interface>, seen: set<string>, tag: string)
    requires ifaces != [] && Named(ifaces[0], tag) && tag !in seen && |seen| < 128
    ensures FindLabel(Reports(ifaces, seen), tag) == Some(ifaces[0])
  {
    LabelIsName(ifaces[0], tag);
    assert Reports(ifaces, seen)[0] == Report(tag, ifaces[0]);
  }

  /** With room for it, the head makes no difference to another label. */
  lemma PassHead(ifaces: seq<Interface>, seen: set<string>, tag: string)
    requires ifaces != [] && !Named(ifaces[0], tag) && tag !in seen && |seen| < 128
    ensures var seen' := seen + Tags([ifaces[0]]);
            tag !in seen' && FindLabel(Reports(ifaces, seen), tag) == FindLabel(Reports(ifaces[1..], seen'), tag)
  {
    SkipLabel(ifaces, seen, tag);
    TagsOfOne(ifaces[0]);
    LabelIsName(ifaces[0], tag);
  }

  /** The labels seen once the head has been looked at. */
  function SeenAfter(ifaces: seq<Interface>, seen: set<string>): set<string>
    requires ifaces != []
  {
    seen + Tags([ifaces[0]])
  }

  /** A first interface further on stays one, and is found alike, when the head is passed. */
  lemma MoveOn(ifaces: seq<Interface>, seen: set<string>, tag: string, i: int)
    requires tag !in seen && 0 < i && FirstNamed(ifaces, seen, tag, i)
    ensures var seen' := SeenAfter(ifaces, seen);
            && tag !in seen' && FirstNamed(ifaces[1..], seen', tag, i - 1)
            && FindLabel(Reports(ifaces, seen), tag) == FindLabel(Reports(ifaces[1..], seen'), tag)
  {
    assert ifaces[0] in ifaces[..i];
    TagBefore(ifaces, seen, i);
    PassHead(ifaces, seen, tag);
    FirstNamedNext(ifaces, seen, tag, i);
  }

  lemma HeadIsFirst(ifaces: seq<Interface>, seen: set<string>, tag: string)
    requires tag !in seen && FirstNamed(ifaces, seen, tag, 0)
    ensures FindLabel(Reports(ifaces, seen), tag) == Some(ifaces[0])
  {
    assert ifaces[..0] == [] && seen + Tags(ifaces[..0]) == seen;
    HeadIsReported(ifaces, seen, tag);
  }

  lemma {:induction false} FirstIsReported(ifaces: seq<Interface>, seen: set<string>, tag: string, i: int)
    requires tag !in seen && FirstNamed(ifaces, seen, tag, i)
    ensures FindLabel(Reports(ifaces, seen), tag) == Some(ifaces[i])
    decreases |ifaces|
  {
    if i == 0 {
      HeadIsFirst(ifaces, seen, tag);
    } else {
      MoveOn(ifaces, seen, tag, i);
      FirstIsReported(ifaces[1..], SeenAfter(ifaces, seen), tag, i - 1);
    }
  }

  /** What is found is found at the head, or after passing it with room left. */
  lemma FoundFurtherOn(ifaces: seq<Interface>, seen: set<string>, tag: string)
    requires tag !in seen && FindLabel(Reports(ifaces, seen), tag).Some? && !Named(ifaces[0], tag)
    ensures var seen' := SeenAfter(ifaces, seen);
            && tag !in seen'
            && FindLabel(Reports(ifaces, seen), tag) == FindLabel(Reports(ifaces[1..], seen'), tag)
  {
    SkipLabel(ifaces, seen, tag);
    TagsOfOne(ifaces[0]);
    LabelIsName(ifaces[0], tag);
  }

  lemma FoundAtHead(ifaces: seq<Interface>, seen: set<string>, tag: string)
    requires tag !in seen && FindLabel(Reports(ifaces, seen), tag).Some? && Named(ifaces[0], tag)
    ensures FirstNamed(ifaces, seen, tag, 0) && FindLabel(Reports(ifaces, seen), tag) == Some(ifaces[0])
  {
    LabelIsName(ifaces[0], tag);
    assert ifaces[..0] == [] && seen + Tags(ifaces[..0]) == seen;
  }

  lemma {:induction false} ReportedIsFirst(ifaces: seq<Interface>, seen: set<string>, tag: string) returns (i: int)
    requires tag !in seen && FindLabel(Reports(ifaces, seen), tag).Some?
    ensures FirstNamed(ifaces, seen, tag, i) && FindLabel(Reports(ifaces, seen), tag) == Some(ifaces[i])
    decreases |ifaces|
  {
    if Named(ifaces[0], tag) {
      FoundAtHead(ifaces, seen, tag);
      i := 0;
    } else {
      FoundFurtherOn(ifaces, seen, tag);
      var j := ReportedIsFirst(ifaces[1..], SeenAfter(ifaces, seen), tag);
      i := j + 1;
      FirstNamedNext(ifaces, seen, tag, i);
    }
  }

  /** What a poll reports for an interface is the agent's first interface of that name, provided fewer than
      128 other labels come before it. */
  lemma ReportedExactly(p: Poll, k: Key, iface: Interface)
    ensures ReportedFor(p, k) == Some(iface) <==>
            p.asset == k.asset && exists i :: FirstNamed(p.ifaces, {}, k.tag, i) && p.ifaces[i] == iface
  {
    if ReportedFor(p, k) == Some(iface) {
      var i := ReportedIsFirst(p.ifaces, {}, k.tag);
    }
    if p.asset == k.asset && exists i :: FirstNamed(p.ifaces, {}, k.tag, i) && p.ifaces[i] == iface {
      var i :| FirstNamed(p.ifaces, {}, k.tag, i) && p.ifaces[i] == iface;
      FirstIsReported(p.ifaces, {}, k.tag, i);
    }
  }
}
