/** Query skeletons with `[[NAME]]` placeholders, seen two ways: as the text the
    factory runs String.replace over, and as a sequence of literal pieces and
    placeholder slots. The main result, FillRender, says that replacing a
    placeholder's marker textually gives the same text as putting the value
    into the slots, provided no piece of text could be mistaken for a marker. */
module Templates {
  import opened Text

  datatype Segment = Lit(text: string) | Hole(name: string)

  type Template = seq<Segment>

  /** The marker a placeholder is written as in a skeleton, e.g. `[[LIMIT]]`. */
  function Marker(name: string): string {
    "[[" + name + "]]"
  }

  function SegmentText(s: Segment): string {
    match s
    case Lit(w) => w
    case Hole(n) => Marker(n)
  }

  /** The text of a template. */
  function Render(t: Template): string
    decreases |t|
  {
    if t == [] then "" else SegmentText(t[0]) + Render(t[1..])
  }

  /** What filling makes of one segment. */
  function FillSegment(s: Segment, n: string, u: Template): Template {
    if s == Hole(n) then u else [s]
  }

  /** Every slot named `name` replaced by the pieces of `u`. */
  function Fill(t: Template, name: string, u: Template): Template
    decreases |t|
  {
    if t == [] then []
    else FillSegment(t[0], name, u) + Fill(t[1..], name, u)
  }

  /** Placeholder names are upper-case words: no brackets. */
  predicate ValidName(n: string) {
    n != [] && '[' !in n && ']' !in n
  }

  /** Text that cannot start a marker: it has no "[[" and does not begin
      with '['. (It may end with '[', as escaped query text can.) */
  predicate Inert(w: string) {
    (w == [] || w[0] != '[') && forall i :: 0 < i < |w| ==> !(w[i - 1] == '[' && w[i] == '[')
  }

  predicate SegmentOk(s: Segment) {
    match s
    case Lit(w) => Inert(w)
    case Hole(n) => ValidName(n)
  }

  predicate Tidy(t: Template) {
    forall k :: 0 <= k < |t| ==> SegmentOk(t[k])
  }

  /** A template whose text pieces cannot be mistaken for a marker. */
  type TidyTemplate = t: Template | Tidy(t) witness []

  /** A template's literal piece; template text never contains '['. */
  function Piece(w: string): (s: Segment)
    requires '[' !in w
    ensures s.Lit? && s.text == w && SegmentOk(s)
  {
    Lit(w)
  }

  /** A template's literal piece holding SPARQL's anonymous blank node `[]`. */
  function PieceWithBlankNode(before: string, after: string): (s: Segment)
    requires before != [] && '[' !in before && '[' !in after
    ensures s.Lit? && s.text == before + "[]" + after && SegmentOk(s)
  {
    var w := before + "[]" + after;
    forall i | 0 < i < |w|
      ensures !(w[i - 1] == '[' && w[i] == '[')
    {
      if i < |before| {
        assert w[i] == before[i] && before[i] in before;
      } else if i == |before| {
        assert w[i - 1] == before[i - 1] && before[i - 1] in before;
      } else if i == |before| + 1 {
        assert w[i] == ']';
      } else {
        assert w[i] == after[i - |before| - 2] && after[i - |before| - 2] in after;
      }
    }
    assert w[0] == before[0];
    Lit(w)
  }

  /** A placeholder slot. */
  function Slot(n: string): (s: Segment)
    requires ValidName(n)
    ensures s == Hole(n) && SegmentOk(s)
  {
    Hole(n)
  }

  // Structural facts

  lemma {:induction false} RenderAppend(a: Template, b: Template)
    ensures Render(a + b) == Render(a) + Render(b)
    decreases |a|
  {
    if a == [] {
      assert a + b == b;
    } else {
      assert (a + b)[1..] == a[1..] + b;
      RenderAppend(a[1..], b);
    }
  }

  /** Two templates around a piece of text. */
  lemma RenderAround(a: Template, w: string, b: Template)
    ensures Render(a + [Lit(w)] + b) == Render(a) + w + Render(b)
  {
    assert Render([Lit(w)]) == w + Render([]) by {
      assert [Lit(w)][1..] == [];
    }
    RenderAppend(a, [Lit(w)]);
    RenderAppend(a + [Lit(w)], b);
  }

  /** Two templates around a slot. */
  lemma RenderAroundSlot(a: Template, n: string, b: Template)
    ensures Render(a + [Hole(n)] + b) == Render(a) + Marker(n) + Render(b)
  {
    assert Render([Hole(n)]) == Marker(n) + Render([]) by {
      assert [Hole(n)][1..] == [];
    }
    RenderAppend(a, [Hole(n)]);
    RenderAppend(a + [Hole(n)], b);
  }

  lemma TidyAppend(a: Template, b: Template)
    requires Tidy(a) && Tidy(b)
    ensures Tidy(a + b)
  {
    forall k | 0 <= k < |a + b|
      ensures SegmentOk((a + b)[k])
    {
      if k >= |a| {
        assert (a + b)[k] == b[k - |a|];
      }
    }
  }

  lemma InertAppend(a: string, b: string)
    requires Inert(a) && Inert(b)
    ensures Inert(a + b)
  {
    var w := a + b;
    forall i | 0 < i < |w|
      ensures !(w[i - 1] == '[' && w[i] == '[')
    {
      if i < |a| {
        assert w[i - 1] == a[i - 1] && w[i] == a[i];
      } else if i == |a| {
        assert w[i] == b[0];
      } else {
        assert w[i - 1] == b[i - 1 - |a|] && w[i] == b[i - |a|];
      }
    }
    if a == [] {
      assert w == b;
    } else {
      assert w[0] == a[0];
    }
  }

  /** The text after a position in a tidy template cannot be "[" followed by
      anything but another '['. */
  predicate StartsOk(s: string) {
    |s| < 2 || s[0] != '[' || s[1] == '['
  }

  lemma {:induction false} RenderStartsOk(t: Template)
    requires Tidy(t)
    ensures StartsOk(Render(t))
    decreases |t|
  {
    if t != [] {
      var rest := Render(t[1..]);
      assert Tidy(t[1..]) by {
        forall k | 0 <= k < |t[1..]| ensures SegmentOk(t[1..][k]) {
          assert t[1..][k] == t[k + 1];
        }
      }
      RenderStartsOk(t[1..]);
      assert SegmentOk(t[0]);
      match t[0]
      case Lit(w) =>
        if w == [] {
          assert Render(t) == rest;
        } else {
          assert Render(t)[0] == w[0];
        }
      case Hole(n) =>
        assert Render(t)[0] == '[' && Render(t)[1] == '[';
    }
  }

  lemma MarkerChars(n: string)
    ensures |Marker(n)| == |n| + 4
    ensures Marker(n)[0] == '[' && Marker(n)[1] == '['
    ensures forall j :: 0 <= j < |n| ==> Marker(n)[2 + j] == n[j]
    ensures Marker(n)[2 + |n|] == ']' && Marker(n)[3 + |n|] == ']'
  {
  }

  /** One differing position, or too little text left, rules out a match. */
  lemma Mismatch(x: string, m: string, i: nat, k: nat)
    requires k < |m|
    requires i + |m| <= |x| ==> x[i + k] != m[k]
    ensures !MatchAt(x, m, i)
  {
    if i + |m| <= |x| {
      assert x[i..i + |m|][k] == x[i + k];
    }
  }

  /** No marker starts inside a piece of text that has no "[[", when the
      text after it does not start with a lone '['. */
  lemma NoMatchInLit(w: string, rest: string, n: string)
    requires Inert(w) && ValidName(n) && StartsOk(rest)
    ensures forall i: nat :: i < |w| ==> !MatchAt(w + rest, Marker(n), i)
  {
    var x := w + rest;
    var m := Marker(n);
    MarkerChars(n);
    assert n[0] in n;
    forall i: nat | i < |w|
      ensures !MatchAt(x, m, i)
    {
      assert x[i] == w[i];
      if w[i] != '[' {
        Mismatch(x, m, i, 0);
      } else if i + 1 < |w| {
        assert !(w[i + 1 - 1] == '[' && w[i + 1] == '[');
        assert x[i + 1] == w[i + 1];
        Mismatch(x, m, i, 1);
      } else if |rest| < 2 {
        Mismatch(x, m, i, 0);
      } else if rest[0] != '[' {
        assert x[i + 1] == rest[0];
        Mismatch(x, m, i, 1);
      } else {
        assert x[i + 2] == rest[1];
        Mismatch(x, m, i, 2);
      }
    }
  }

  /** The marker of `n` is not found where another marker starts. */
  lemma NoMatchAtMarker(h: string, rest: string, n: string)
    requires ValidName(h) && ValidName(n) && h != n
    ensures !MatchAt(Marker(h) + rest, Marker(n), 0)
  {
    var a := Marker(h);
    var x := a + rest;
    var m := Marker(n);
    MarkerChars(n);
    MarkerChars(h);
    if |h| == |n| {
      var j :| 0 <= j < |h| && h[j] != n[j];
      assert x[2 + j] == a[2 + j] == h[j];
      Mismatch(x, m, 0, 2 + j);
    } else if |h| < |n| {
      assert x[2 + |h|] == a[2 + |h|] == ']';
      assert n[|h|] in n;
      Mismatch(x, m, 0, 2 + |h|);
    } else {
      assert x[2 + |n|] == a[2 + |n|] == h[|n|];
      assert h[|n|] in h;
      Mismatch(x, m, 0, 2 + |n|);
    }
  }

  /** No marker of `n` starts inside the marker of another placeholder. */
  lemma NoMatchInHole(h: string, rest: string, n: string)
    requires ValidName(h) && ValidName(n) && h != n
    ensures forall i: nat :: i < |Marker(h)| ==> !MatchAt(Marker(h) + rest, Marker(n), i)
  {
    var a := Marker(h);
    var x := a + rest;
    var m := Marker(n);
    MarkerChars(n);
    MarkerChars(h);
    assert n[0] in n;
    assert h[0] in h;
    forall i: nat | i < |a|
      ensures !MatchAt(x, m, i)
    {
      if i == 0 {
        NoMatchAtMarker(h, rest, n);
      } else if i == 1 {
        assert x[2] == a[2] == h[0];
        Mismatch(x, m, 1, 1);
      } else if i < 2 + |h| {
        assert x[i] == a[i] == h[i - 2];
        assert h[i - 2] in h;
        Mismatch(x, m, i, 0);
      } else {
        assert x[i] == a[i] == ']';
        Mismatch(x, m, i, 0);
      }
    }
  }

  /** No marker of `n` starts inside the text of a segment that is not an
      `n` slot. */
  lemma NoMatchInside(s: Segment, rest: string, n: string)
    requires SegmentOk(s) && s != Hole(n) && ValidName(n) && StartsOk(rest)
    ensures forall i: nat :: i < |SegmentText(s)| ==> !MatchAt(SegmentText(s) + rest, Marker(n), i)
  {
    match s
    case Lit(w) => NoMatchInLit(w, rest, n);
    case Hole(h) => NoMatchInHole(h, rest, n);
  }

  /** Textual replacement of a placeholder's marker agrees with filling the
      placeholder's slots, whatever the filled-in text is: String.replace
      does not rescan what it inserts, and no marker can straddle or hide in
      the pieces of a tidy template. */
  lemma {:induction false} FillRender(t: Template, n: string, u: Template)
    requires Tidy(t) && ValidName(n)
    ensures ReplaceAll(Render(t), Marker(n), Render(u)) == Render(Fill(t, n, u))
    decreases |t|
  {
    var m := Marker(n);
    if t == [] {
    } else {
      var rest := t[1..];
      assert Tidy(rest) by {
        forall k | 0 <= k < |rest| ensures SegmentOk(rest[k]) {
          assert rest[k] == t[k + 1];
        }
      }
      FillRender(rest, n, u);
      if t[0] == Hole(n) {
        ReplaceAllAtMatch(Render(rest), m, Render(u));
        RenderAppend(u, Fill(rest, n, u));
      } else {
        assert SegmentOk(t[0]);
        RenderStartsOk(rest);
        NoMatchInside(t[0], Render(rest), n);
        ReplaceAllSkip(SegmentText(t[0]), Render(rest), m, Render(u));
        RenderAppend([t[0]], Fill(rest, n, u));
        assert Render([t[0]]) == SegmentText(t[0]) + Render([]);
      }
    }
  }

  /** Filling distributes over concatenation. */
  lemma {:induction false} FillAppend(a: Template, b: Template, n: string, u: Template)
    ensures Fill(a + b, n, u) == Fill(a, n, u) + Fill(b, n, u)
    decreases |a|
  {
    if a == [] {
      assert a + b == b;
    } else {
      assert (a + b)[1..] == a[1..] + b;
      FillAppend(a[1..], b, n, u);
    }
  }

  lemma FillOf5(s0: Segment, s1: Segment, s2: Segment, s3: Segment, s4: Segment, n: string, u: Template)
    ensures Fill([s0, s1, s2, s3, s4], n, u)
      == FillSegment(s0, n, u) + (FillSegment(s1, n, u) + (FillSegment(s2, n, u)
       + (FillSegment(s3, n, u) + FillSegment(s4, n, u))))
  {
    assert [s0, s1, s2, s3, s4][1..] == [s1, s2, s3, s4];
    assert [s1, s2, s3, s4][1..] == [s2, s3, s4];
    assert [s2, s3, s4][1..] == [s3, s4];
    assert [s3, s4][1..] == [s4];
    assert Fill([s4], n, u) == FillSegment(s4, n, u) + Fill([], n, u);
    assert Fill([s3, s4], n, u) == FillSegment(s3, n, u) + Fill([s4], n, u);
    assert Fill([s2, s3, s4], n, u) == FillSegment(s2, n, u) + Fill([s3, s4], n, u);
    assert Fill([s1, s2, s3, s4], n, u) == FillSegment(s1, n, u) + Fill([s2, s3, s4], n, u);
  }

  lemma RenderOf5(s0: Segment, s1: Segment, s2: Segment, s3: Segment, s4: Segment)
    ensures Render([s0, s1, s2, s3, s4])
      == SegmentText(s0) + (SegmentText(s1) + (SegmentText(s2) + (SegmentText(s3) + SegmentText(s4))))
  {
    assert [s0, s1, s2, s3, s4][1..] == [s1, s2, s3, s4];
    assert [s1, s2, s3, s4][1..] == [s2, s3, s4];
    assert [s2, s3, s4][1..] == [s3, s4];
    assert [s3, s4][1..] == [s4];
    assert Render([s4]) == SegmentText(s4) + Render([]);
    assert Render([s3, s4]) == SegmentText(s3) + Render([s4]);
    assert Render([s2, s3, s4]) == SegmentText(s2) + Render([s3, s4]);
    assert Render([s1, s2, s3, s4]) == SegmentText(s1) + Render([s2, s3, s4]);
  }

  /** Filling a tidy template with a tidy one keeps it tidy. */
  lemma {:induction false} FillTidy(t: Template, n: string, u: Template)
    requires Tidy(t) && Tidy(u)
    ensures Tidy(Fill(t, n, u))
    decreases |t|
  {
    if t != [] {
      var rest := t[1..];
      assert Tidy(rest) by {
        forall k | 0 <= k < |rest| ensures SegmentOk(rest[k]) {
          assert rest[k] == t[k + 1];
        }
      }
      FillTidy(rest, n, u);
      if t[0] != Hole(n) {
        assert Tidy([t[0]]) by { assert SegmentOk(t[0]); }
      }
      TidyAppend(if t[0] == Hole(n) then u else [t[0]], Fill(rest, n, u));
    }
  }

  /** Every slot still open in `t` is named in `names`. */
  predicate HolesIn(t: Template, names: set<string>) {
    forall k :: 0 <= k < |t| && t[k].Hole? ==> t[k].name in names
  }

  /** A template whose pieces are tidy and whose open slots are among `names`. */
  predicate WellFormed(t: Template, names: set<string>) {
    Tidy(t) && HolesIn(t, names)
  }

  lemma HolesInAppend(a: Template, b: Template, na: set<string>, nb: set<string>)
    requires HolesIn(a, na) && HolesIn(b, nb)
    ensures HolesIn(a + b, na + nb)
  {
    forall k | 0 <= k < |a + b| && (a + b)[k].Hole?
      ensures (a + b)[k].name in na + nb
    {
      if k >= |a| {
        assert (a + b)[k] == b[k - |a|];
      }
    }
  }

  lemma WellFormedAppend(a: Template, b: Template, names: set<string>)
    requires WellFormed(a, names) && WellFormed(b, names)
    ensures WellFormed(a + b, names)
  {
    TidyAppend(a, b);
    HolesInAppend(a, b, names, names);
    assert names + names == names;
  }

  lemma WellFormedJoin(a: Template, b: Template, na: set<string>, nb: set<string>)
    requires WellFormed(a, na) && WellFormed(b, nb)
    ensures WellFormed(a + b, na + nb)
  {
    TidyAppend(a, b);
    HolesInAppend(a, b, na, nb);
  }

  lemma HolesInRest(t: Template, names: set<string>)
    requires t != [] && WellFormed(t, names)
    ensures WellFormed(t[1..], names)
  {
    forall k | 0 <= k < |t[1..]|
      ensures SegmentOk(t[1..][k]) && (t[1..][k].Hole? ==> t[1..][k].name in names)
    {
      assert t[1..][k] == t[k + 1];
    }
  }

  /** A value put into a slot as one piece of text. */
  function Filler(v: string): (u: Template)
    ensures Render(u) == v && HolesIn(u, {})
    ensures Tidy(u) <==> Inert(v)
  {
    assert [Lit(v)][1..] == [];
    [Lit(v)]
  }

  /** Filling closes the `n` slots and opens only those of the inserted text. */
  lemma {:induction false} FillHolesIn(t: Template, n: string, u: Template, names: set<string>, added: set<string>)
    requires HolesIn(t, names) && HolesIn(u, added)
    ensures HolesIn(Fill(t, n, u), (names - {n}) + added)
    decreases |t|
  {
    if t != [] {
      assert HolesIn(t[1..], names) by {
        forall k | 0 <= k < |t[1..]| && t[1..][k].Hole? ensures t[1..][k].name in names {
          assert t[1..][k] == t[k + 1];
        }
      }
      FillHolesIn(t[1..], n, u, names, added);
      var head := if t[0] == Hole(n) then u else [t[0]];
      assert HolesIn(head, (names - {n}) + added);
      HolesInAppend(head, Fill(t[1..], n, u), (names - {n}) + added, (names - {n}) + added);
    }
  }

  /** Filling a slot that is not open changes nothing. */
  lemma {:induction false} FillAbsent(t: Template, n: string, u: Template, names: set<string>)
    requires HolesIn(t, names) && n !in names
    ensures Fill(t, n, u) == t
    decreases |t|
  {
    if t != [] {
      assert HolesIn(t[1..], names) by {
        forall k | 0 <= k < |t[1..]| && t[1..][k].Hole? ensures t[1..][k].name in names {
          assert t[1..][k] == t[k + 1];
        }
      }
      FillAbsent(t[1..], n, u, names);
      assert t[0] != Hole(n);
      assert t == [t[0]] + t[1..];
    }
  }

  /** Once every slot of a tidy template is filled, its text holds no "[[",
      so no placeholder marker of any name is left in it. */
  lemma {:induction false} ClosedRenderInert(t: Template)
    requires WellFormed(t, {})
    ensures Inert(Render(t))
    decreases |t|
  {
    if t != [] {
      HolesInRest(t, {});
      assert SegmentOk(t[0]);
      assert !t[0].Hole?;
      ClosedRenderInert(t[1..]);
      InertAppend(t[0].text, Render(t[1..]));
    }
  }

  /** Inert text contains no marker. */
  lemma InertHasNoMarker(w: string, n: string, i: nat)
    requires Inert(w)
    ensures !MatchAt(w, Marker(n), i)
  {
    MarkerChars(n);
    if i + |Marker(n)| <= |w| {
      if w[i] != '[' {
        Mismatch(w, Marker(n), i, 0);
      } else {
        assert !(w[i + 1 - 1] == '[' && w[i + 1] == '[');
        Mismatch(w, Marker(n), i, 1);
      }
    } else {
      Mismatch(w, Marker(n), i, 0);
    }
  }

  // Chains of replacements

  /** One `replace(marker, value)` call of a chain, with the value given as
      a template (a plain value is a Filler). */
  datatype Pass = Pass(name: string, value: Template)

  /** The text after each pass of the chain has replaced its marker, left to
      right. */
  function ReplacePasses(s: string, passes: seq<Pass>): string
    decreases |passes|
  {
    if passes == [] then s
    else ReplacePasses(ReplaceAll(s, Marker(passes[0].name), Render(passes[0].value)), passes[1..])
  }

  /** The same chain on the template: each pass fills its slots in turn. */
  function FillPasses(t: Template, passes: seq<Pass>): Template
    decreases |passes|
  {
    if passes == [] then t else FillPasses(Fill(t, passes[0].name, passes[0].value), passes[1..])
  }

  predicate PassesOk(passes: seq<Pass>) {
    forall i :: 0 <= i < |passes| ==> ValidName(passes[i].name) && Tidy(passes[i].value)
  }

  /** A chain of textual replacements over a tidy template agrees with
      filling its slots pass by pass, and the result stays tidy. */
  lemma {:induction false} PassesRender(t: Template, passes: seq<Pass>)
    requires Tidy(t) && PassesOk(passes)
    ensures ReplacePasses(Render(t), passes) == Render(FillPasses(t, passes))
    ensures Tidy(FillPasses(t, passes))
    decreases |passes|
  {
    if passes != [] {
      var p := passes[0];
      FillRender(t, p.name, p.value);
      FillTidy(t, p.name, p.value);
      assert PassesOk(passes[1..]) by {
        forall i | 0 <= i < |passes[1..]|
          ensures ValidName(passes[1..][i].name) && Tidy(passes[1..][i].value)
        {
          assert passes[1..][i] == passes[i + 1];
        }
      }
      PassesRender(Fill(t, p.name, p.value), passes[1..]);
    }
  }

  /** Passes distribute over concatenation. */
  lemma {:induction false} FillPassesAppend(a: Template, b: Template, passes: seq<Pass>)
    ensures FillPasses(a + b, passes) == FillPasses(a, passes) + FillPasses(b, passes)
    decreases |passes|
  {
    if passes != [] {
      var p := passes[0];
      FillAppend(a, b, p.name, p.value);
      FillPassesAppend(Fill(a, p.name, p.value), Fill(b, p.name, p.value), passes[1..]);
    }
  }

  /** A chain of passes is the concatenation of its two parts. */
  lemma {:induction false} FillPassesConcat(t: Template, p1: seq<Pass>, p2: seq<Pass>)
    ensures FillPasses(t, p1 + p2) == FillPasses(FillPasses(t, p1), p2)
    decreases |p1|
  {
    if p1 != [] {
      assert (p1 + p2)[0] == p1[0];
      assert (p1 + p2)[1..] == p1[1..] + p2;
      FillPassesConcat(Fill(t, p1[0].name, p1[0].value), p1[1..], p2);
    } else {
      assert p1 + p2 == p2;
    }
  }

  // Simultaneous substitution

  /** The reference meaning of filling a skeleton: every slot named in `env`
      receives its template at once, and nothing inserted is looked at
      again. */
  function SubstituteSegment(s: Segment, env: map<string, Template>): Template {
    if s.Hole? && s.name in env then env[s.name] else [s]
  }

  function Substitute(t: Template, env: map<string, Template>): Template
    decreases |t|
  {
    if t == [] then [] else SubstituteSegment(t[0], env) + Substitute(t[1..], env)
  }

  lemma {:induction false} SubstituteAppend(a: Template, b: Template, env: map<string, Template>)
    ensures Substitute(a + b, env) == Substitute(a, env) + Substitute(b, env)
    decreases |a|
  {
    if a != [] {
      assert (a + b)[0] == a[0];
      assert (a + b)[1..] == a[1..] + b;
      SubstituteAppend(a[1..], b, env);
    } else {
      assert a + b == b;
    }
  }

  /** No slot of `t` is named in `keys`. */
  predicate NoSlotIn(t: Template, keys: set<string>) {
    forall k :: 0 <= k < |t| && t[k].Hole? ==> t[k].name !in keys
  }

  /** Substituting names a template has no slot for leaves it as it is. */
  lemma {:induction false} SubstituteAbsent(t: Template, env: map<string, Template>)
    requires NoSlotIn(t, env.Keys)
    ensures Substitute(t, env) == t
    decreases |t|
  {
    if t != [] {
      assert NoSlotIn(t[1..], env.Keys) by {
        forall k | 0 <= k < |t[1..]| && t[1..][k].Hole? ensures t[1..][k].name !in env.Keys {
          assert t[1..][k] == t[k + 1];
        }
      }
      SubstituteAbsent(t[1..], env);
      assert t == [t[0]] + t[1..];
    }
  }

  /** Filling one slot and then substituting the others is one substitution,
      provided the inserted template has no slot the later substitution
      would fill. */
  lemma {:induction false} SubstituteFill(t: Template, n: string, u: Template, env: map<string, Template>)
    requires NoSlotIn(u, env.Keys)
    ensures Substitute(Fill(t, n, u), env) == Substitute(t, env[n := u])
    decreases |t|
  {
    if t != [] {
      SubstituteAppend(FillSegment(t[0], n, u), Fill(t[1..], n, u), env);
      SubstituteFill(t[1..], n, u, env);
      if t[0] == Hole(n) {
        SubstituteAbsent(u, env);
      } else {
        assert [t[0]][1..] == [];
      }
    }
  }

  /** The substitution a chain of passes performs: the first pass of each
      name decides what its slots receive. */
  function EnvOf(passes: seq<Pass>): map<string, Template>
    decreases |passes|
  {
    if passes == [] then map[] else EnvOf(passes[1..])[passes[0].name := passes[0].value]
  }

  /** No pass inserts a slot that a later pass fills. */
  predicate Independent(passes: seq<Pass>) {
    forall i, j :: 0 <= i < j < |passes| ==> NoSlotIn(passes[i].value, {passes[j].name})
  }

  lemma {:induction false} EnvOfKeys(u: Template, passes: seq<Pass>)
    requires forall j :: 0 <= j < |passes| ==> NoSlotIn(u, {passes[j].name})
    ensures NoSlotIn(u, EnvOf(passes).Keys)
    decreases |passes|
  {
    if passes != [] {
      assert forall j :: 0 <= j < |passes[1..]| ==> passes[1..][j] == passes[j + 1];
      EnvOfKeys(u, passes[1..]);
      assert NoSlotIn(u, {passes[0].name});
    }
  }

  /** A chain of independent passes performs one simultaneous substitution. */
  lemma {:induction false} PassesSubstitute(t: Template, passes: seq<Pass>)
    requires Independent(passes)
    ensures FillPasses(t, passes) == Substitute(t, EnvOf(passes))
    decreases |passes|
  {
    if passes != [] {
      var p := passes[0];
      var rest := passes[1..];
      assert forall j :: 0 <= j < |rest| ==> rest[j] == passes[j + 1];
      assert Independent(rest);
      assert forall j :: 0 <= j < |rest| ==> NoSlotIn(p.value, {rest[j].name});
      EnvOfKeys(p.value, rest);
      PassesSubstitute(Fill(t, p.name, p.value), rest);
      SubstituteFill(t, p.name, p.value, EnvOf(rest));
    } else {
      SubstituteAbsent(t, map[]);
    }
  }

  /** Substitutions that agree on the slots of `t` give the same result. */
  lemma {:induction false} SubstituteAgree(t: Template, e1: map<string, Template>, e2: map<string, Template>, names: set<string>)
    requires HolesIn(t, names)
    requires forall n :: n in names ==> (n in e1 <==> n in e2)
    requires forall n :: n in names && n in e1 ==> e1[n] == e2[n]
    ensures Substitute(t, e1) == Substitute(t, e2)
    decreases |t|
  {
    if t != [] {
      assert HolesIn(t[1..], names) by {
        forall k | 0 <= k < |t[1..]| && t[1..][k].Hole? ensures t[1..][k].name in names {
          assert t[1..][k] == t[k + 1];
        }
      }
      SubstituteAgree(t[1..], e1, e2, names);
    }
  }

  /** Substitution closes the slots it has a value for and opens those of
      the values it inserts. */
  lemma {:induction false} SubstituteHolesIn(t: Template, env: map<string, Template>, names: set<string>, added: set<string>)
    requires HolesIn(t, names)
    requires forall n :: n in names && n in env ==> HolesIn(env[n], added)
    ensures HolesIn(Substitute(t, env), (names - env.Keys) + added)
    decreases |t|
  {
    if t != [] {
      assert HolesIn(t[1..], names) by {
        forall k | 0 <= k < |t[1..]| && t[1..][k].Hole? ensures t[1..][k].name in names {
          assert t[1..][k] == t[k + 1];
        }
      }
      SubstituteHolesIn(t[1..], env, names, added);
      var r := (names - env.Keys) + added;
      HolesInAppend(SubstituteSegment(t[0], env), Substitute(t[1..], env), r, r);
      assert r + r == r;
    }
  }

  /** A chain of replacements is the concatenation of its two parts. */
  lemma {:induction false} ReplacePassesConcat(s: string, p1: seq<Pass>, p2: seq<Pass>)
    ensures ReplacePasses(s, p1 + p2) == ReplacePasses(ReplacePasses(s, p1), p2)
    decreases |p1|
  {
    if p1 != [] {
      assert (p1 + p2)[0] == p1[0];
      assert (p1 + p2)[1..] == p1[1..] + p2;
      ReplacePassesConcat(ReplaceAll(s, Marker(p1[0].name), Render(p1[0].value)), p1[1..], p2);
    } else {
      assert p1 + p2 == p2;
    }
  }

  /** A chain of independent replacements over a well-formed skeleton is a
      simultaneous substitution; when that substitution closes every slot,
      no placeholder marker is left in the text. */
  lemma ChainSubstitute(t: Template, passes: seq<Pass>, names: set<string>, env: map<string, Template>)
    requires WellFormed(t, names) && PassesOk(passes) && Independent(passes)
    requires Substitute(t, EnvOf(passes)) == Substitute(t, env)
    requires forall n :: n in names ==> n in env && HolesIn(env[n], {})
    ensures ReplacePasses(Render(t), passes) == Render(Substitute(t, env))
    ensures Inert(ReplacePasses(Render(t), passes))
  {
    PassesRender(t, passes);
    PassesSubstitute(t, passes);
    SubstituteHolesIn(t, env, names, {});
    assert (names - env.Keys) + {} == {};
    ClosedRenderInert(Substitute(t, env));
  }

  /** The first pass of a name decides what EnvOf gives that name. */
  lemma {:induction false} EnvOfFirst(passes: seq<Pass>, i: nat)
    requires i < |passes|
    requires forall j :: 0 <= j < i ==> passes[j].name != passes[i].name
    ensures passes[i].name in EnvOf(passes) && EnvOf(passes)[passes[i].name] == passes[i].value
    decreases i
  {
    if i > 0 {
      var rest := passes[1..];
      assert rest[i - 1] == passes[i];
      assert forall j :: 0 <= j < i - 1 ==> rest[j] == passes[j + 1];
      EnvOfFirst(rest, i - 1);
    }
  }

  /** Passes whose values are closed cannot disturb each other. */
  predicate ClosedValues(passes: seq<Pass>) {
    forall i :: 0 <= i < |passes| ==> HolesIn(passes[i].value, {})
  }

  lemma ClosedIndependent(passes: seq<Pass>)
    requires ClosedValues(passes)
    ensures Independent(passes)
  {
    forall i, j | 0 <= i < j < |passes| ensures NoSlotIn(passes[i].value, {passes[j].name}) {
      assert HolesIn(passes[i].value, {});
    }
  }

  /** A name no pass carries is not in the chain's substitution. */
  lemma {:induction false} EnvOfMissing(passes: seq<Pass>, n: string)
    requires forall i :: 0 <= i < |passes| ==> passes[i].name != n
    ensures n !in EnvOf(passes)
    decreases |passes|
  {
    if passes != [] {
      assert forall i :: 0 <= i < |passes[1..]| ==> passes[1..][i] == passes[i + 1];
      EnvOfMissing(passes[1..], n);
    }
  }
}
