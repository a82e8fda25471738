/** `_path_template`: identifier segments of a path become placeholders, and are collected in order. */
module PathTemplate {
  import opened Text

  const PLACEHOLDER := "{id}"

  predicate IsHex(c: char) { IsDigit(c) || 'a' <= c <= 'f' || 'A' <= c <= 'F' }

  /** A number, a UUID-like word or a long hexadecimal one. */
  predicate IsId(s: string) {
    || (s != "" && forall c <- s :: IsDigit(c))
    || (|s| >= 36 && (forall c <- s[..8] :: IsHex(c)) && s[8] == '-' && forall c <- s[9..] :: IsHex(c) || c == '-')
    || (|s| >= 16 && forall c <- s :: IsHex(c))
  }

  /** The ASCII reading of `_ID_SEGMENT`; like `$`, it overlooks one line break at the end. */
  predicate IsIdSegment(segment: string) {
    IsId(if segment != "" && segment[|segment| - 1] == '\n' then segment[..|segment| - 1] else segment)
  }

  /** Which words without a hyphen count as identifiers: numbers, and hexadecimal words from sixteen letters on. */
  lemma IdWordExactly(s: string)
    requires '-' !in s
    ensures IsId(s) <==>
      && s != "" && (forall c <- s :: c in "0123456789abcdefABCDEF")
      && ((forall c <- s :: c in "0123456789") || |s| >= 16)
  {
    HexChars();
    if |s| >= 36 {
      assert s[8] in s;
    }
  }

  /** Which words with a hyphen count as identifiers: those shaped like a UUID, in any letter case. */
  lemma IdHyphenExactly(s: string)
    requires '-' in s
    ensures IsId(s) <==>
      && |s| >= 36 && (forall i :: 0 <= i < 8 ==> s[i] in "0123456789abcdefABCDEF") && s[8] == '-'
      && forall i :: 9 <= i < |s| ==> s[i] in "0123456789abcdefABCDEF-"
  {
    HexChars();
    assert !IsHex('-');
    if |s| >= 36 {
      assert forall i :: 0 <= i < 8 ==> s[i] == s[..8][i];
      assert forall i :: 0 <= i < |s| - 9 ==> s[9..][i] == s[9 + i];
      assert forall i :: 9 <= i < |s| ==> s[i] == s[9..][i - 9];
    }
  }

  /** One line break at the end is overlooked, and any other refused. */
  lemma IdLineBreak(s: string)
    ensures '\n' in s ==> !IsId(s)
    ensures IsIdSegment(s + "\n") <==> IsId(s)
    ensures (s == "" || s[|s| - 1] != '\n') ==> (IsIdSegment(s) <==> IsId(s))
  {
    HexChars();
    assert !IsHex('\n');
    assert (s + "\n")[..|s|] == s;
    if |s| >= 36 && '\n' in s {
      assert s == s[..8] + [s[8]] + s[9..];
    }
  }

  lemma HexChars()
    ensures forall c :: IsDigit(c) <==> c in "0123456789"
    ensures forall c :: IsHex(c) <==> c in "0123456789abcdefABCDEF"
  {
  }

  function RenderOne(segment: string): string {
    if IsIdSegment(segment) then PLACEHOLDER else segment
  }

  function Rendered(segments: seq<string>): (r: seq<string>)
    ensures |r| == |segments|
  {
    seq(|segments|, i requires 0 <= i < |segments| => RenderOne(segments[i]))
  }

  function Ids(segments: seq<string>): seq<string> {
    if segments == [] then []
    else
      var last := segments[|segments| - 1];
      Ids(segments[..|segments| - 1]) + (if IsIdSegment(last) then [last] else [])
  }

  function TemplateOf(path: string): string {
    var text := Join(Rendered(Segments(path)), '/');
    if text == "" then "/" else text
  }

  function RefsOf(path: string): seq<string> { Ids(Segments(path)) }

  lemma RenderedAppend(segments: seq<string>, s: string)
    ensures Rendered(segments + [s]) == Rendered(segments) + [RenderOne(s)]
  {
  }

  lemma IdsAppend(segments: seq<string>, s: string)
    ensures Ids(segments + [s]) == Ids(segments) + (if IsIdSegment(s) then [s] else [])
  {
    assert (segments + [s])[..|segments|] == segments;
  }

  method Template(path: string) returns (template: string, refs: seq<string>)
    ensures template == TemplateOf(path) && refs == RefsOf(path)
  {
    var segments := Split(path, '/');
    refs := [];
    var rendered: seq<string> := [];
    for i := 0 to |segments|
      invariant refs == Ids(segments[..i])
      invariant rendered == Rendered(segments[..i])
    {
      assert segments[..i + 1] == segments[..i] + [segments[i]];
      RenderedAppend(segments[..i], segments[i]);
      IdsAppend(segments[..i], segments[i]);
      if IsIdSegment(segments[i]) {
        refs := refs + [segments[i]];
        rendered := rendered + [PLACEHOLDER];
      } else {
        rendered := rendered + [segments[i]];
      }
    }
    assert segments[..|segments|] == segments;
    var text := Join(rendered, '/');
    template := if text == "" then "/" else text;
  }

  // ---------------------------------------------------------------- the template of a path

  lemma PlaceholderIsNoId()
    ensures !IsIdSegment(PLACEHOLDER) && '/' !in PLACEHOLDER
  {
    var first := PLACEHOLDER[0];
    assert first == '{' && first in PLACEHOLDER && !IsHex(first);
    assert |PLACEHOLDER| == 4 && PLACEHOLDER[3] != '\n';
  }

  /** Apart from the empty path, a template has the rendered segments of its path. */
  lemma TemplateSegments(path: string)
    requires path != ""
    ensures Segments(TemplateOf(path)) == Rendered(Segments(path))
  {
    var rendered := Rendered(Segments(path));
    SplitParts(path, '/');
    PlaceholderIsNoId();
    forall p | p in rendered ensures '/' !in p {
      var i :| 0 <= i < |rendered| && rendered[i] == p;
      assert Segments(path)[i] in Segments(path);
    }
    SplitJoin(rendered, '/');
    if Join(rendered, '/') == "" {
      assert rendered == [""];
      assert Segments(path) == [""];
      JoinSplit(path, '/');
    }
  }

  /** Templating keeps the number of segments, except that the empty path becomes the root. */
  lemma SegmentCountKept(path: string)
    ensures |Segments(TemplateOf(path))| == |Segments(path)| <==> path != ""
  {
    if path != "" {
      TemplateSegments(path);
    } else {
      assert Rendered([""]) == [""];
      assert "/"[1..] == "";
    }
  }

  lemma TemplateIdempotent(path: string)
    ensures TemplateOf(TemplateOf(path)) == TemplateOf(path)
    ensures RefsOf(TemplateOf(path)) == []
  {
    var once := TemplateOf(path);
    if path != "" {
      TemplateSegments(path);
      RenderedHasNoIds(Segments(path));
    } else {
      assert Rendered([""]) == [""] && "/"[1..] == "";
    }
    assert forall i :: 0 <= i < |Segments(once)| ==> !IsIdSegment(Segments(once)[i]);
    NoIds(Segments(once));
    JoinSplit(once, '/');
  }

  lemma RenderedHasNoIds(segments: seq<string>)
    ensures forall i :: 0 <= i < |segments| ==> !IsIdSegment(Rendered(segments)[i])
  {
    PlaceholderIsNoId();
  }

  lemma {:induction false} NoIds(segments: seq<string>)
    requires forall i :: 0 <= i < |segments| ==> !IsIdSegment(segments[i])
    ensures Ids(segments) == [] && Rendered(segments) == segments
  {
    if segments != [] { NoIds(segments[..|segments| - 1]); }
  }

  // ---------------------------------------------------------------- undoing it

  /** Placeholders replaced by the references, from the last to the first. */
  function Fill(segments: seq<string>, refs: seq<string>): (r: seq<string>)
    ensures |r| == |segments|
  {
    if segments == [] then []
    else
      var last := segments[|segments| - 1];
      var front := segments[..|segments| - 1];
      if last == PLACEHOLDER && refs != [] then Fill(front, refs[..|refs| - 1]) + [refs[|refs| - 1]]
      else Fill(front, refs) + [last]
  }

  lemma {:induction false} FillNothing(segments: seq<string>)
    ensures Fill(segments, []) == segments
  {
    if segments != [] { FillNothing(segments[..|segments| - 1]); }
  }

  /** No literal placeholder stands behind an identifier. */
  ghost predicate NoIdBeforePlaceholder(segments: seq<string>) {
    forall i, j :: 0 <= i < j < |segments| ==> !(IsIdSegment(segments[i]) && segments[j] == PLACEHOLDER)
  }

  predicate HasId(segments: seq<string>) {
    exists i :: 0 <= i < |segments| && IsIdSegment(segments[i])
  }

  lemma HasIdAppend(front: seq<string>, last: string)
    ensures HasId(front + [last]) <==> HasId(front) || IsIdSegment(last)
  {
    var segments := front + [last];
    if HasId(front) {
      var i :| 0 <= i < |front| && IsIdSegment(front[i]);
      assert IsIdSegment(segments[i]);
    }
    if IsIdSegment(last) { assert IsIdSegment(segments[|front|]); }
  }

  lemma {:induction false} IdsAreThere(segments: seq<string>)
    ensures Ids(segments) != [] <==> HasId(segments)
  {
    if segments != [] {
      var front, last := segments[..|segments| - 1], segments[|segments| - 1];
      assert segments == front + [last];
      IdsAreThere(front);
      HasIdAppend(front, last);
    }
  }

  /** The references are just the segments that are identifiers. */
  lemma {:induction false} IdsExactly(segments: seq<string>, ref: string)
    ensures ref in Ids(segments) <==> ref in segments && IsIdSegment(ref)
  {
    if segments != [] {
      var front, last := segments[..|segments| - 1], segments[|segments| - 1];
      assert segments == front + [last];
      IdsExactly(front, ref);
    }
  }

  lemma NoIdBeforeAppend(front: seq<string>, last: string)
    ensures NoIdBeforePlaceholder(front + [last]) <==>
      NoIdBeforePlaceholder(front) && !(HasId(front) && last == PLACEHOLDER)
  {
    var segments := front + [last];
    assert forall i :: 0 <= i < |front| ==> segments[i] == front[i];
    if HasId(front) && last == PLACEHOLDER {
      var i :| 0 <= i < |front| && IsIdSegment(front[i]);
      assert IsIdSegment(segments[i]) && segments[|front|] == PLACEHOLDER;
    }
  }

  ghost predicate FillsBack(segments: seq<string>) {
    Fill(Rendered(segments), Ids(segments)) == segments
  }

  /** Filling in restores the segments exactly when no literal placeholder stands behind an identifier. */
  lemma {:induction false} FillRendered(segments: seq<string>)
    ensures FillsBack(segments) <==> NoIdBeforePlaceholder(segments)
  {
    if segments != [] {
      var front, last := segments[..|segments| - 1], segments[|segments| - 1];
      assert segments == front + [last];
      FillRendered(front);
      NoIdBeforeAppend(front, last);
      if last == PLACEHOLDER {
        FillLiteral(front);
      } else {
        FillOneMore(front, last);
      }
    }
  }

  /** A literal placeholder at the end takes the last reference there is, if any. */
  lemma FillLiteral(front: seq<string>)
    ensures FillsBack(front + [PLACEHOLDER]) <==> !HasId(front)
    ensures !HasId(front) ==> NoIdBeforePlaceholder(front)
  {
    var ids := Ids(front);
    PlaceholderIsNoId();
    RenderedAppend(front, PLACEHOLDER);
    IdsAppend(front, PLACEHOLDER);
    assert ids + [] == ids;
    IdsAreThere(front);
    if ids == [] {
      assert forall i :: 0 <= i < |front| ==> !IsIdSegment(front[i]);
      NoIds(front);
      FillNothing(front + [PLACEHOLDER]);
    } else {
      IdsExactly(front, ids[|ids| - 1]);
      FillTakesLast(Rendered(front), ids);
      assert (front + [PLACEHOLDER])[|front|] == PLACEHOLDER != ids[|ids| - 1];
    }
  }

  lemma FillTakesLast(segments: seq<string>, refs: seq<string>)
    requires refs != []
    ensures Fill(segments + [PLACEHOLDER], refs)[|segments|] == refs[|refs| - 1]
  {
    var longer := segments + [PLACEHOLDER];
    assert longer[..|segments|] == segments && longer[|segments|] == PLACEHOLDER;
    assert Fill(longer, refs) == Fill(segments, refs[..|refs| - 1]) + [refs[|refs| - 1]];
  }

  lemma FillOneMore(front: seq<string>, last: string)
    requires last != PLACEHOLDER
    ensures FillsBack(front + [last]) <==> FillsBack(front)
  {
    var rendered, ids, refs := Rendered(front), Ids(front), Ids(front + [last]);
    RenderedAppend(front, last);
    IdsAppend(front, last);
    FillAppend(rendered, last, ids, last);
    if !IsIdSegment(last) { assert ids + [] == ids; }
    assert Fill(Rendered(front + [last]), refs) == Fill(rendered, ids) + [last];
    OneMore(Fill(rendered, ids), front, last);
  }

  lemma OneMore(a: seq<string>, b: seq<string>, last: string)
    ensures a + [last] == b + [last] <==> a == b
  {
    assert a == (a + [last])[..|a|] && b == (b + [last])[..|b|];
  }

  lemma FillAppend(segments: seq<string>, s: string, refs: seq<string>, ref: string)
    ensures Fill(segments + [PLACEHOLDER], refs + [ref]) == Fill(segments, refs) + [ref]
    ensures s != PLACEHOLDER ==> Fill(segments + [s], refs) == Fill(segments, refs) + [s]
  {
    assert (segments + [PLACEHOLDER])[..|segments|] == segments && (segments + [s])[..|segments|] == segments;
    assert (refs + [ref])[..|refs|] == refs;
  }

  lemma {:induction false} FillParts(segments: seq<string>, refs: seq<string>)
    ensures forall s :: s in Fill(segments, refs) ==> s in segments || s in refs
  {
    if segments != [] {
      var front, n := segments[..|segments| - 1], |refs|;
      FillParts(front, refs);
      if n > 0 { FillParts(front, refs[..n - 1]); }
    }
  }

  /**
   * Filling the references back in gives the path exactly when it is not empty and no literal placeholder stands behind
   * an identifier.
   */
  lemma FillUndoesTemplate(path: string)
    ensures Join(Fill(Segments(TemplateOf(path)), RefsOf(path)), '/') == path <==>
      path != "" && NoIdBeforePlaceholder(Segments(path))
  {
    if path == "" {
      EmptyIsRoot();
    } else {
      TemplateSegments(path);
      FillRendered(Segments(path));
      var filled := Fill(Rendered(Segments(path)), RefsOf(path));
      FilledIsSplit(path);
      JoinSplit(path, '/');
      SplitJoin(filled, '/');
    }
  }

  lemma FilledIsSplit(path: string)
    ensures forall s :: s in Fill(Rendered(Segments(path)), RefsOf(path)) ==> '/' !in s
  {
    var segments := Segments(path);
    FillParts(Rendered(segments), Ids(segments));
    RenderedIsSplit(path);
    forall ref | ref in Ids(segments) ensures '/' !in ref {
      IdsExactly(segments, ref);
      SplitParts(path, '/');
    }
  }

  lemma RenderedIsSplit(path: string)
    ensures forall s :: s in Rendered(Segments(path)) ==> '/' !in s
  {
    var segments := Segments(path);
    SplitParts(path, '/');
    PlaceholderIsNoId();
    forall s | s in Rendered(segments) ensures '/' !in s {
      var i :| 0 <= i < |segments| && Rendered(segments)[i] == s;
      assert segments[i] in segments;
    }
  }

  lemma EmptyIsRoot()
    ensures TemplateOf("") == TemplateOf("/") == "/" && RefsOf("") == [] && Segments("/") == ["", ""]
    ensures Join(Fill(["", ""], []), '/') == "/"
  {
    assert Rendered([""]) == [""] && "/"[1..] == "";
    assert Rendered(["", ""]) == ["", ""];
    FillNothing(["", ""]);
    assert ["", ""][1..] == [""];
  }

  lemma ThreeSegments(a: string, b: string)
    requires '/' !in a && '/' !in b
    ensures Segments("/" + a + "/" + b) == ["", a, b]
  {
    var parts := ["", a, b];
    assert parts[1..] == [a, b] && [a, b][1..] == [b];
    assert Join([a, b], '/') == a + "/" + b;
    assert Join(parts, '/') == "/" + (a + "/" + b) == "/" + a + "/" + b;
    SplitJoin(parts, '/');
  }

  lemma RefsOfThree(a: string, b: string)
    ensures Ids(["", a, b]) == (if IsIdSegment(a) then [a] else []) + (if IsIdSegment(b) then [b] else [])
  {
    assert [""] + [a] == ["", a] && ["", a] + [b] == ["", a, b];
    IdsAppend(["", a], b);
    IdsAppend([""], a);
    IdsAppend([], "");
  }

  /**
   * The failing family is real, and no other way of filling in could do better: `/5/{id}` and `/{id}/5` are two paths
   * with the same template and the same references, as they are for any identifier in the place of 5.
   */
  lemma NoUndoForBoth(id: string)
    requires IsIdSegment(id) && '/' !in id
    ensures var p, q := "/" + id + "/" + PLACEHOLDER, "/" + PLACEHOLDER + "/" + id;
      && p != q && TemplateOf(p) == TemplateOf(q) && RefsOf(p) == RefsOf(q) == [id]
      && !NoIdBeforePlaceholder(Segments(p)) && NoIdBeforePlaceholder(Segments(q))
  {
    PlaceholderIsNoId();
    ThreeSegments(id, PLACEHOLDER);
    ThreeSegments(PLACEHOLDER, id);
    TwoOrders(id);
    var x, y := ["", id, PLACEHOLDER], ["", PLACEHOLDER, id];
    assert x[1] != y[1];
  }

  lemma TwoOrders(id: string)
    requires IsIdSegment(id)
    ensures var x, y := ["", id, PLACEHOLDER], ["", PLACEHOLDER, id];
      && Rendered(x) == Rendered(y) && Ids(x) == Ids(y) == [id]
      && !NoIdBeforePlaceholder(x) && NoIdBeforePlaceholder(y)
  {
    PlaceholderIsNoId();
    RefsOfThree(id, PLACEHOLDER);
    RefsOfThree(PLACEHOLDER, id);
    var x, y := ["", id, PLACEHOLDER], ["", PLACEHOLDER, id];
    assert Rendered(x) == ["", PLACEHOLDER, PLACEHOLDER] == Rendered(y);
    assert IsIdSegment(x[1]) && x[2] == PLACEHOLDER;
  }

  lemma FiveIsAnId()
    ensures IsIdSegment("5") && '/' !in "5" && "/" + "5" + "/" + PLACEHOLDER == "/5/{id}"
  {
  }

  /** A path that is not restored. */
  lemma LiteralTakesTheReference()
    ensures Join(Fill(Segments(TemplateOf("/5/{id}")), RefsOf("/5/{id}")), '/') != "/5/{id}"
  {
    FiveIsAnId();
    NoUndoForBoth("5");
    FillUndoesTemplate("/5/{id}");
  }

  // ---------------------------------------------------------------- paths with one template

  /** What a template shows as a placeholder. */
  predicate IsSlot(segment: string) { segment == PLACEHOLDER || IsIdSegment(segment) }

  /** Equal, or both shown as a placeholder. */
  predicate Interchangeable(a: string, b: string) {
    a == b || (IsSlot(a) && IsSlot(b))
  }

  function Rooted(path: string): string { if path == "" then "/" else path }

  /** Two paths share a template exactly when they agree position by position, up to what shows as a placeholder. */
  lemma SameTemplateExactly(p: string, q: string)
    ensures TemplateOf(p) == TemplateOf(q) <==>
      && |Segments(Rooted(p))| == |Segments(Rooted(q))|
      && forall i :: 0 <= i < |Segments(Rooted(p))| ==> Interchangeable(Segments(Rooted(p))[i], Segments(Rooted(q))[i])
  {
    EmptyIsRoot();
    TemplateSegments(Rooted(p));
    TemplateSegments(Rooted(q));
    JoinSplit(TemplateOf(p), '/');
    JoinSplit(TemplateOf(q), '/');
    SameRenderedExactly(Segments(Rooted(p)), Segments(Rooted(q)));
  }

  lemma SameRenderedExactly(x: seq<string>, y: seq<string>)
    ensures Rendered(x) == Rendered(y) <==> |x| == |y| && forall i :: 0 <= i < |x| ==> Interchangeable(x[i], y[i])
  {
    if Rendered(x) == Rendered(y) {
      forall i | 0 <= i < |x| ensures Interchangeable(x[i], y[i]) {
        assert Rendered(x)[i] == Rendered(y)[i];
        SameShown(x[i], y[i]);
      }
    }
    if |x| == |y| && forall i :: 0 <= i < |x| ==> Interchangeable(x[i], y[i]) {
      forall i | 0 <= i < |x| ensures Rendered(x)[i] == Rendered(y)[i] {
        SameShown(x[i], y[i]);
      }
    }
  }

  lemma SameShown(a: string, b: string)
    ensures RenderOne(a) == RenderOne(b) <==> Interchangeable(a, b)
  {
    PlaceholderIsNoId();
  }
}
