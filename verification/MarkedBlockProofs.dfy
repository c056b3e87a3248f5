/** The section is written once, stays where it is, and nothing around it is lost. */
module MarkedBlockProofs {
  import opened Basics
  import opened Text
  import opened MarkedBlock

  // Where a marker can occur in a concatenation

  ghost predicate Absent(s: string, m: string) { forall i :: !OccursAt(s, m, i) }

  lemma OccursShift(p: string, s: string, m: string, i: int)
    requires i >= 0
    ensures OccursAt(p + s, m, |p| + i) <==> OccursAt(s, m, i)
  {
    if i + |m| <= |s| {
      assert (p + s)[|p| + i..|p| + i + |m|] == s[i..i + |m|];
    }
  }

  lemma OccursInPrefix(p: string, s: string, m: string, i: int)
    requires i + |m| <= |p|
    ensures OccursAt(p + s, m, i) <==> OccursAt(p, m, i)
  {
    if i >= 0 {
      assert (p + s)[i..i + |m|] == p[i..i + |m|];
    }
  }

  lemma AbsentBeforeBlock(p: string, rest: string, m: string)
    requires Marker(m) && Absent(p, m) && rest != "" && rest[0] == '<'
    ensures forall i :: i < |p| ==> !OccursAt(p + rest, m, i)
  {
    forall i | i < |p| ensures !OccursAt(p + rest, m, i) {
      if OccursAt(p + rest, m, i) {
        BeforeAngle(p, rest, m, i);
      }
    }
  }

  lemma AbsentWithBreaks(p: string, breaks: string, m: string)
    requires Marker(m) && Absent(p, m) && forall k :: 0 <= k < |breaks| ==> breaks[k] == '\n'
    ensures Absent(p + breaks, m)
  {
    var s := p + breaks;
    assert forall k :: |p| <= k < |s| ==> s[k] == '\n';
    forall i ensures !OccursAt(s, m, i) {
      if OccursAt(s, m, i) {
        MarkerChars(s, m, i);
        OccursInPrefix(p, breaks, m, i);
      }
    }
  }

  lemma AbsentAfterBreak(p: string, m: string)
    requires Marker(m) && Absent(p, m)
    ensures Absent("\n" + p, m)
  {
    var s := "\n" + p;
    forall i ensures !OccursAt(s, m, i) {
      if OccursAt(s, m, i) {
        MarkerChars(s, m, i);
        OccursShift("\n", p, m, i - 1);
      }
    }
  }

  lemma AbsentInPrefix(s: string, n: nat, m: string)
    requires n <= |s| && forall i :: i + |m| <= n ==> !OccursAt(s, m, i)
    ensures Absent(s[..n], m)
  {
    forall i ensures !OccursAt(s[..n], m, i) {
      if OccursAt(s[..n], m, i) {
        SplitAt(s, n);
        OccursInPrefix(s[..n], s[n..], m, i);
      }
    }
  }

  /** Two markers starting at different places do not overlap. */
  lemma Apart(s: string, a: string, b: string, i: int, j: int)
    requires Marker(a) && Marker(b) && OccursAt(s, a, i) && OccursAt(s, b, j) && i < j
    ensures i + |a| <= j
  {
    MarkerChars(s, a, i);
    MarkerChars(s, b, j);
  }

  lemma NotBoth(tags: Tags, s: string, i: int)
    requires MarkerPair(tags)
    ensures !(OccursAt(s, tags.open, i) && OccursAt(s, tags.close, i))
  {
    var k: nat :| DifferAt(tags, k);
    if OccursAt(s, tags.open, i) && OccursAt(s, tags.close, i) {
      CharOf(s, tags.open, i, k);
      CharOf(s, tags.close, i, k);
    }
  }

  // Blocks

  lemma ShapeFacts(tags: Tags, block: string)
    requires MarkerPair(tags) && WellShaped(tags, block)
    ensures |block| >= |tags.open| + |tags.close| + 1 && block[0] == '<' && block[|block| - 1] == '\n'
  {
    MarkerChars(block, tags.open, 0);
    NotBoth(tags, block, 0);
    LastCharIs(block);
    Apart(block, tags.open, tags.close, 0, |block| - 1 - |tags.close|);
  }

  lemma LastCharIs(s: string)
    requires EndsWith(s, "\n")
    ensures |s| > 0 && s[|s| - 1] == '\n'
  {
    assert s[|s| - 1] == s[|s| - 1..][0];
  }

  /** The section written for a body is well shaped exactly when the body does not close it early. */
  lemma SectionShape(tags: Tags, body: string)
    requires MarkerPair(tags)
    ensures WellShaped(tags, SectionBlock(tags, body)) <==> Absent(body, tags.close)
  {
    var block := SectionBlock(tags, body);
    SectionFacts(tags, body);
    if Absent(body, tags.close) {
      forall j | 0 <= j < |block| - 1 - |tags.close| ensures !OccursAt(block, tags.close, j) {
        NoEarlierEnd(tags, body, j);
      }
    }
    forall i | OccursAt(body, tags.close, i) ensures OccursAt(block, tags.close, |tags.open| + 1 + i) {
      BodyInside(tags, body, i);
    }
  }

  lemma SectionFacts(tags: Tags, body: string)
    requires MarkerPair(tags)
    ensures SectionBlock(tags, body) == tags.open + ("\n" + body + "\n") + (tags.close + "\n")
    ensures OccursAt(SectionBlock(tags, body), tags.open, 0) && EndsWith(SectionBlock(tags, body), "\n")
    ensures OccursAt(SectionBlock(tags, body), tags.close, |SectionBlock(tags, body)| - 1 - |tags.close|)
  {
    FiveParts(tags.open, body, tags.close);
  }

  lemma FiveParts(start: string, body: string, end: string)
    ensures start + "\n" + body + "\n" + end + "\n" == start + ("\n" + body + "\n") + (end + "\n")
    ensures var block := start + "\n" + body + "\n" + end + "\n";
            && OccursAt(block, start, 0) && EndsWith(block, "\n")
            && OccursAt(block, end, |block| - 1 - |end|)
  {
    var head := start + "\n" + body + "\n";
    var block := head + end + "\n";
    OccursInside(head, end, "\n");
    assert block[0..|start|] == start;
    assert block[|block| - 1..] == "\n";
  }

  lemma BodyInside(tags: Tags, body: string, i: int)
    requires MarkerPair(tags)
    requires OccursAt(body, tags.close, i)
    ensures OccursAt(SectionBlock(tags, body), tags.close, |tags.open| + 1 + i)
  {
    var head, close := tags.open + "\n", "\n" + tags.close + "\n";
    OccursInPrefix(body, close, tags.close, i);
    OccursShift(head, body + close, tags.close, i);
    assert SectionBlock(tags, body) == head + (body + close);
  }

  lemma WholeOccurs(m: string)
    ensures OccursAt(m, m, 0)
  {
    assert m[0..|m|] == m;
  }

  lemma NoEarlierEnd(tags: Tags, body: string, j: int)
    requires MarkerPair(tags)
    requires Absent(body, tags.close) && 0 <= j < |tags.open| + |body| + 2
    ensures !OccursAt(tags.open + ("\n" + body + "\n") + (tags.close + "\n"), tags.close, j)
  {
    var mid, close := "\n" + body + "\n", tags.close + "\n";
    AbsentAfterBreak(body, tags.close);
    AbsentWithBreaks("\n" + body, "\n", tags.close);
    var s := tags.open + mid;
    WholeOccurs(tags.open);
    OccursInPrefix(tags.open, mid, tags.open, 0);
    NotBoth(tags, s, 0);
    MarkerChars(s, tags.open, 0);
    if OccursAt(s + close, tags.close, j) {
      BeforeAngle(s, close, tags.close, j);
      MarkerChars(s, tags.close, j);
      OccursShift(tags.open, mid, tags.close, j - |tags.open|);
    }
  }

  // Settled text: the section in place, surrounded as the merge leaves it

  ghost predicate Settled(tags: Tags, p: string, t: string) {
    && Absent(p, tags.open) && Absent(p, tags.close) && Opened(p) == p
    && (t == "" || t[0] != '\n')
  }

  /** Merging into settled text changes nothing. */
  lemma SettledIsFixed(tags: Tags, p: string, block: string, t: string)
    requires MarkerPair(tags) && WellShaped(tags, block) && Settled(tags, p, t)
    ensures Upserted(tags, p + (block + t), block) == p + (block + t)
  {
    SettledMarkers(tags, p, block, t);
    FixedPoint(tags, p, block, t);
  }

  lemma FixedPoint(tags: Tags, p: string, block: string, t: string)
    requires EndsWith(block, "\n") && |tags.close| < |block| && Opened(p) == p && (t == "" || t[0] != '\n')
    requires Markers(tags, p + (block + t)) == Some((|p|, |p| + |block| - 1 - |tags.close|))
    ensures Upserted(tags, p + (block + t), block) == p + (block + t)
  {
    var r, e := p + (block + t), |p| + |block| - 1 - |tags.close|;
    UpsertAt(tags, r, block, |p|, e);
    assert r[..|p|] == p by { DropPrefix(p, block + t); }
    assert TrimStart(r[e + |tags.close|..], Newline) == t by { TrimAfterBlock(p, block, t); }
  }

  lemma SettledMarkers(tags: Tags, p: string, block: string, t: string)
    requires MarkerPair(tags) && WellShaped(tags, block) && Absent(p, tags.open) && Absent(p, tags.close)
    ensures Markers(tags, p + (block + t)) == Some((|p|, |p| + |block| - 1 - |tags.close|))
    ensures |tags.close| < |block|
  {
    ShapeFacts(tags, block);
    OpenOfSettled(tags, p, block, t);
    CloseOfSettled(tags, p, block, t);
    MarkersAt(tags, p + (block + t), |p|, |p| + (|block| - 1 - |tags.close|));
  }

  lemma CloseOfSettled(tags: Tags, p: string, block: string, t: string)
    requires MarkerPair(tags) && WellShaped(tags, block) && Absent(p, tags.close)
    ensures FirstAt(p + (block + t), tags.close, |p| + (|block| - 1 - |tags.close|))
  {
    ShapeFacts(tags, block);
    FirstInBlock(p, block, t, tags.close, |block| - 1 - |tags.close|);
  }

  lemma OpenOfSettled(tags: Tags, p: string, block: string, t: string)
    requires MarkerPair(tags) && WellShaped(tags, block) && Absent(p, tags.open)
    ensures FirstAt(p + (block + t), tags.open, |p|)
  {
    ShapeFacts(tags, block);
    FirstInBlock(p, block, t, tags.open, 0);
  }

  lemma TrimAfterBlock(p: string, block: string, t: string)
    requires EndsWith(block, "\n") && (t == "" || t[0] != '\n')
    ensures TrimStart((p + (block + t))[|p| + |block| - 1..], Newline) == t
  {
    var init := block[..|block| - 1];
    var after := "\n" + t;
    assert block == init + "\n";
    assert p + (block + t) == (p + init) + after;
    DropPrefix(p + init, after);
    TrimBreak(t);
  }

  lemma TrimBreak(t: string)
    requires t == "" || t[0] != '\n'
    ensures TrimStart("\n" + t, Newline) == t
  {
    assert ("\n" + t)[1..] == t;
  }

  lemma FirstInBlock(p: string, block: string, t: string, m: string, at: nat)
    requires Marker(m) && Absent(p, m) && FirstAt(block, m, at) && block[0] == '<'
    ensures FirstAt(p + (block + t), m, |p| + at)
  {
    var tail := block + t;
    OccursInPrefix(block, t, m, at);
    OccursShift(p, tail, m, at);
    AbsentBeforeBlock(p, tail, m);
    forall j | 0 <= j < |p| + at ensures !OccursAt(p + tail, m, j) {
      if j >= |p| {
        OccursShift(p, tail, m, j - |p|);
        OccursInPrefix(block, t, m, j - |p|);
      }
    }
  }

  // Idempotence where the markers are in order

  lemma OpenedIsSettled(tags: Tags, before: string, t: string)
    requires MarkerPair(tags)
    requires Absent(before, tags.open) && Absent(before, tags.close) && (t == "" || t[0] != '\n')
    ensures Settled(tags, Opened(before), t)
  {
    AbsentWithBreaks(before, "\n", tags.open);
    AbsentWithBreaks(before, "\n", tags.close);
    if Opened(before) == before + "\n" { assert (before + "\n")[|before|..] == "\n"; }
  }

  lemma InOrderSettles(tags: Tags, existing: string, block: string) returns (p: string, t: string)
    requires MarkerPair(tags) && EndsWith(block, "\n") && InOrder(tags, existing)
    ensures Settled(tags, p, t) && Upserted(tags, existing, block) == p + (block + t)
  {
    var start, end := Find(existing, tags.open), Find(existing, tags.close);
    if start.Some? {
      p, t := ReplacedSettles(tags, existing, block, start.value, end.value);
    } else {
      p, t := FreshSettles(tags, existing, block);
    }
  }

  lemma FreshSettles(tags: Tags, existing: string, block: string) returns (p: string, t: string)
    requires MarkerPair(tags) && Find(existing, tags.open).None? && Find(existing, tags.close).None?
    ensures Settled(tags, p, t) && Upserted(tags, existing, block) == p + (block + t)
  {
    p, t := (if Trim(existing, Whitespace) == "" then "" else AppendedTo(existing)), "";
    assert block + "" == block && "" + block == block;
    if p != "" { AppendedIsSettled(tags, existing); }
  }

  lemma ReplacedSettles(tags: Tags, existing: string, block: string, s: nat, e: nat) returns (p: string, t: string)
    requires MarkerPair(tags) && EndsWith(block, "\n")
    requires Find(existing, tags.open) == Some(s) && Find(existing, tags.close) == Some(e) && s < e
    ensures Settled(tags, p, t) && Upserted(tags, existing, block) == p + (block + t)
  {
    p, t := Opened(existing[..s]), TrimStart(existing[e + |tags.close|..], Newline);
    UpsertAt(tags, existing, block, s, e);
    FindMeans(existing, tags.open);
    FindMeans(existing, tags.close);
    TrimStartIs(existing[e + |tags.close|..], Newline);
    BeforeIsSettled(tags, existing, s, e, t);
  }

  lemma AppendedIsSettled(tags: Tags, existing: string)
    requires MarkerPair(tags) && Find(existing, tags.open).None? && Find(existing, tags.close).None?
    ensures Settled(tags, AppendedTo(existing), "")
  {
    var p := AppendedTo(existing);
    FindMeans(existing, tags.open);
    FindMeans(existing, tags.close);
    AppendedAbsent(existing, tags.open);
    AppendedAbsent(existing, tags.close);
    assert p[|p| - 1..] == "\n";
  }

  lemma BeforeIsSettled(tags: Tags, existing: string, s: nat, e: nat, t: string)
    requires MarkerPair(tags) && FirstAt(existing, tags.open, s) && FirstAt(existing, tags.close, e) && s < e
    requires t == "" || t[0] != '\n'
    ensures Settled(tags, Opened(existing[..s]), t)
  {
    BeforeMarker(existing, tags.open, tags.open, s);
    BeforeMarker(existing, tags.open, tags.close, s);
    OpenedIsSettled(tags, existing[..s], t);
  }

  lemma UpsertAt(tags: Tags, r: string, block: string, s: nat, e: nat)
    requires Markers(tags, r) == Some((s, e)) && s <= |r| && e + |tags.close| <= |r| && EndsWith(block, "\n")
    ensures Upserted(tags, r, block) == Opened(r[..s]) + (block + TrimStart(r[e + |tags.close|..], Newline))
  {
    var before, after := r[..s], r[e + |tags.close|..];
    assert Upserted(tags, r, block) == Opened(before) + block + Closing(block, after);
    ReplacedIs(before, block, after);
  }

  lemma ReplacedIs(before: string, block: string, after: string)
    requires EndsWith(block, "\n")
    ensures Opened(before) + block + Closing(block, after) == Opened(before) + (block + TrimStart(after, Newline))
  {
    ClosingIsTrimmed(block, after);
    Assoc(Opened(before), block, TrimStart(after, Newline));
  }

  lemma MarkersAt(tags: Tags, r: string, s: nat, e: nat)
    requires FirstAt(r, tags.open, s) && FirstAt(r, tags.close, e)
    ensures Markers(tags, r) == Some((s, e))
    ensures s <= |r| && e + |tags.close| <= |r|
  {
    FindIs(r, tags.open, s);
    FindIs(r, tags.close, e);
  }

  lemma ClosingIsTrimmed(block: string, after: string)
    requires EndsWith(block, "\n")
    ensures Closing(block, after) == TrimStart(after, Newline)
  {
    assert "" + TrimStart(after, Newline) == TrimStart(after, Newline);
  }

  // Appending: where the markers of the old text are afterwards

  function AppendedTo(existing: string): string { TrimEnd(existing, Whitespace) + "\n\n" }

  lemma AppendedOccurs(existing: string, m: string, j: int)
    requires Marker(m)
    ensures OccursAt(AppendedTo(existing), m, j) <==> OccursAt(existing, m, j)
  {
    var text := TrimEnd(existing, Whitespace);
    var s := text + "\n\n";
    TrimEndIs(existing, Whitespace);
    SplitAt(existing, |text|);
    if OccursAt(existing, m, j) {
      TrimmedKeepsMarker(existing, m, j);
      OccursInPrefix(text, "\n\n", m, j);
    }
    if OccursAt(s, m, j) {
      MarkerChars(s, m, j);
      assert s[|text|] == '\n' && s[|text| + 1] == '\n';
      OccursInPrefix(text, "\n\n", m, j);
      OccursInPrefix(text, existing[|text|..], m, j);
    }
  }

  lemma AppendedAbsent(existing: string, m: string)
    requires Marker(m) && Absent(existing, m)
    ensures Absent(AppendedTo(existing), m)
  {
    forall j ensures !OccursAt(AppendedTo(existing), m, j) { AppendedOccurs(existing, m, j); }
  }

  lemma AppendedFirst(existing: string, block: string, m: string, i: nat)
    requires Marker(m) && FirstAt(existing, m, i)
    ensures FirstAt(AppendedTo(existing) + block, m, i) && i + |m| <= |AppendedTo(existing)|
  {
    var p := AppendedTo(existing);
    forall j | 0 <= j <= i ensures OccursAt(p, m, j) <==> OccursAt(existing, m, j) { AppendedOccurs(existing, m, j); }
    FirstKept(p, block, m, i);
  }

  lemma FirstKept(p: string, tail: string, m: string, i: nat)
    requires FirstAt(p, m, i)
    ensures FirstAt(p + tail, m, i)
  {
    forall j | 0 <= j <= i ensures OccursAt(p + tail, m, j) <==> OccursAt(p, m, j) { OccursInPrefix(p, tail, m, j); }
  }

  lemma AppendsTo(tags: Tags, existing: string, block: string, m: string, i: nat)
    requires MarkerPair(tags)
    requires Marker(m) && OccursAt(existing, m, i) && Markers(tags, existing).None?
    ensures Upserted(tags, existing, block) == AppendedTo(existing) + block
  {
    MarkerChars(existing, m, i);
    TrimNotBlank(existing, i);
  }

  /** Nothing that first occurs at or after a marker occurs in the text before that marker. */
  lemma BeforeMarker(s: string, m: string, sought: string, at: nat)
    requires OccursAt(s, m, at) && forall j :: 0 <= j < at ==> !OccursAt(s, sought, j)
    requires sought != ""
    ensures Absent(s[..at], sought)
  {
    AbsentInPrefix(s, at, sought);
  }

  // The three other arrangements are never idempotent

  /** Only a start marker: the second merge swallows the text after it. */
  lemma StartOnlyShrinks(tags: Tags, existing: string, block: string)
    requires MarkerPair(tags) && WellShaped(tags, block)
    requires Find(existing, tags.open).Some? && Find(existing, tags.close).None?
    ensures |Upserted(tags, Upserted(tags, existing, block), block)| < |Upserted(tags, existing, block)|
  {
    var s := Find(existing, tags.open).value;
    FindMeans(existing, tags.open);
    FindMeans(existing, tags.close);
    AppendsTo(tags, existing, block, tags.open, s);
    StartOnlyMarkers(tags, existing, block, s);
    Swallows(tags, AppendedTo(existing), block, s);
  }

  lemma Swallows(tags: Tags, p: string, block: string, s: nat)
    requires EndsWith(block, "\n") && |tags.close| < |block| && s + 3 <= |p|
    requires Markers(tags, p + block) == Some((s, |p| + |block| - 1 - |tags.close|))
    ensures |Upserted(tags, p + block, block)| < |p + block|
  {
    UpsertAt(tags, p + block, block, s, |p| + |block| - 1 - |tags.close|);
    assert block + "" == block;
    TrimAfterBlock(p, block, "");
  }

  lemma StartOnlyMarkers(tags: Tags, existing: string, block: string, s: nat)
    requires MarkerPair(tags) && WellShaped(tags, block)
    requires FirstAt(existing, tags.open, s) && Absent(existing, tags.close)
    ensures var p := AppendedTo(existing);
            && Markers(tags, p + block) == Some((s, |p| + |block| - 1 - |tags.close|))
            && s + 3 <= |p| && |tags.close| < |block|
  {
    var merged, e := AppendedTo(existing) + block, |AppendedTo(existing)| + |block| - 1 - |tags.close|;
    assert FirstAt(merged, tags.close, e) && |tags.close| < |block| by { CloseOfAppended(tags, existing, block); }
    assert FirstAt(merged, tags.open, s) && s + 3 <= |AppendedTo(existing)| by {
      OpenOfAppended(existing, block, tags.open, s);
    }
    MarkersAt(tags, merged, s, e);
  }

  lemma OpenOfAppended(existing: string, block: string, m: string, s: nat)
    requires Marker(m) && FirstAt(existing, m, s)
    ensures FirstAt(AppendedTo(existing) + block, m, s) && s + 3 <= |AppendedTo(existing)|
  {
    AppendedFirst(existing, block, m, s);
    EndsBeforeBreaks(existing, m, s);
  }

  /** The blank line that is appended stands behind every marker. */
  lemma EndsBeforeBreaks(existing: string, m: string, s: nat)
    requires Marker(m) && OccursAt(existing, m, s)
    ensures s + 3 <= |AppendedTo(existing)|
  {
    var p := AppendedTo(existing);
    AppendedOccurs(existing, m, s);
    CharOf(p, m, s, 0);
  }

  lemma CloseOfAppended(tags: Tags, existing: string, block: string)
    requires MarkerPair(tags) && WellShaped(tags, block) && Absent(existing, tags.close)
    ensures FirstAt(AppendedTo(existing) + block, tags.close, |AppendedTo(existing)| + |block| - 1 - |tags.close|)
    ensures |tags.close| < |block|
  {
    ShapeFacts(tags, block);
    AppendedAbsent(existing, tags.close);
    FirstInBlock(AppendedTo(existing), block, "", tags.close, |block| - 1 - |tags.close|);
    assert block + "" == block;
  }

  /** Only an end marker: the second merge keeps the first section and adds another. */
  lemma EndOnlyGrows(tags: Tags, existing: string, block: string)
    requires MarkerPair(tags) && WellShaped(tags, block)
    requires Find(existing, tags.open).None? && Find(existing, tags.close).Some?
    ensures |Upserted(tags, Upserted(tags, existing, block), block)| > |Upserted(tags, existing, block)|
  {
    var e := Find(existing, tags.close).value;
    var p := AppendedTo(existing);
    FindMeans(existing, tags.open);
    FindMeans(existing, tags.close);
    AppendsTo(tags, existing, block, tags.close, e);
    EndOnlyMarkers(tags, existing, block, e);
    assert Opened(p) == p by { assert p[|p| - 1..] == "\n"; }
    assert block + "" == block;
    Repeats(tags, p, block, "", e);
  }

  /** An end marker in front of the section: everything from there on is kept behind the new section. */
  lemma Repeats(tags: Tags, p: string, block: string, t: string, e: nat)
    requires EndsWith(block, "\n") && block[0] == '<' && Opened(p) == p && e + |tags.close| <= |p|
    requires Markers(tags, p + (block + t)) == Some((|p|, e))
    ensures |Upserted(tags, p + (block + t), block)| > |p + (block + t)|
  {
    var gap := p[e + |tags.close|..];
    DropPrefix(p, block + t);
    SuffixOf(p, block + t, e + |tags.close|);
    UpsertBehind(tags, p + (block + t), p, gap, block, block + t, e);
  }

  lemma EndOnlyMarkers(tags: Tags, existing: string, block: string, e: nat)
    requires MarkerPair(tags) && WellShaped(tags, block)
    requires FirstAt(existing, tags.close, e) && Absent(existing, tags.open)
    ensures var p := AppendedTo(existing);
            Markers(tags, p + block) == Some((|p|, e)) && e + |tags.close| <= |p|
    ensures block[0] == '<'
  {
    var p := AppendedTo(existing);
    ShapeFacts(tags, block);
    AppendedFirst(existing, block, tags.close, e);
    AppendedAbsent(existing, tags.open);
    FirstInBlock(p, block, "", tags.open, 0);
    assert block + "" == block;
    MarkersAt(tags, p + block, |p|, e);
  }

  /** The end marker first: the second merge writes the section after itself. */
  lemma EndFirstGrows(tags: Tags, existing: string, block: string)
    requires MarkerPair(tags) && WellShaped(tags, block)
    requires Find(existing, tags.open).Some? && Find(existing, tags.close).Some?
    requires Find(existing, tags.close).value < Find(existing, tags.open).value
    ensures |Upserted(tags, Upserted(tags, existing, block), block)| > |Upserted(tags, existing, block)|
  {
    var s, e := Find(existing, tags.open).value, Find(existing, tags.close).value;
    var p, t := Opened(existing[..s]), TrimStart(existing[e + |tags.close|..], Newline);
    UpsertAt(tags, existing, block, s, e);
    FindMeans(existing, tags.open);
    FindMeans(existing, tags.close);
    TrimStartIs(existing[e + |tags.close|..], Newline);
    EndFirstMarkers(tags, existing, block, s, e, t);
    OpenedTwice(existing[..s]);
    Repeats(tags, p, block, t, e);
  }

  lemma OpenedTwice(before: string)
    ensures Opened(Opened(before)) == Opened(before)
  {
    DropPrefix(before, "\n");
  }

  lemma EndFirstMarkers(tags: Tags, existing: string, block: string, s: nat, e: nat, t: string)
    requires MarkerPair(tags) && WellShaped(tags, block)
    requires FirstAt(existing, tags.open, s) && FirstAt(existing, tags.close, e) && e < s
    ensures var p := Opened(existing[..s]);
            Markers(tags, p + (block + t)) == Some((|p|, e)) && e + |tags.close| <= |p|
    ensures block[0] == '<'
  {
    var before, p := existing[..s], Opened(existing[..s]);
    ShapeFacts(tags, block);
    Apart(existing, tags.close, tags.open, e, s);
    EndBeforeStays(tags, existing, s, e);
    FirstKept(p, block + t, tags.close, e);
    BeforeMarker(existing, tags.open, tags.open, s);
    OpenedAbsent(before, tags.open);
    FirstInBlock(p, block, t, tags.open, 0);
    MarkersAt(tags, p + (block + t), |p|, e);
  }

  lemma OpenedAbsent(before: string, m: string)
    requires Marker(m) && Absent(before, m)
    ensures Absent(Opened(before), m)
  {
    AbsentWithBreaks(before, "\n", m);
  }

  lemma EndBeforeStays(tags: Tags, existing: string, s: nat, e: nat)
    requires MarkerPair(tags)
    requires FirstAt(existing, tags.close, e) && e + |tags.close| <= s <= |existing|
    ensures FirstAt(Opened(existing[..s]), tags.close, e)
  {
    var before := existing[..s];
    SplitAt(existing, s);
    forall j | 0 <= j <= e ensures OccursAt(before, tags.close, j) <==> OccursAt(existing, tags.close, j) {
      OccursInPrefix(before, existing[s..], tags.close, j);
    }
    FirstKept(before, "\n", tags.close, e);
  }

  lemma TrimmedKeepsMarker(s: string, m: string, i: nat)
    requires Marker(m) && OccursAt(s, m, i)
    ensures i + |m| <= |TrimEnd(s, Whitespace)| && OccursAt(TrimEnd(s, Whitespace), m, i)
  {
    MarkerChars(s, m, i);
    var text := TrimEnd(s, Whitespace);
    assert !Whitespace('>');
    TrimEndIs(s, Whitespace);
    SplitAt(s, |text|);
    OccursInPrefix(text, s[|text|..], m, i);
  }

  lemma TrimNotBlank(s: string, i: nat)
    requires i < |s| && s[i] == '<'
    ensures Trim(s, Whitespace) != ""
  {
    SplitAt(s, i);
    assert s == s[..i] + s[i..i + 1] + s[i + 1..];
    TrimAround(s[..i], s[i..i + 1], s[i + 1..], Whitespace);
  }

  // Main results

  /** A second merge changes nothing exactly when no marker stands alone or out of order. */
  lemma IdempotentExactlyInOrder(tags: Tags, existing: string, block: string)
    requires MarkerPair(tags) && WellShaped(tags, block)
    ensures Upserted(tags, Upserted(tags, existing, block), block) == Upserted(tags, existing, block)
            <==> InOrder(tags, existing)
  {
    var start, end := Find(existing, tags.open), Find(existing, tags.close);
    if InOrder(tags, existing) {
      var p, t := InOrderSettles(tags, existing, block);
      SettledIsFixed(tags, p, block, t);
    } else if start.None? {
      EndOnlyGrows(tags, existing, block);
    } else if end.None? {
      StartOnlyShrinks(tags, existing, block);
    } else {
      NotBoth(tags, existing, start.value);
      FindMeans(existing, tags.open);
      FindMeans(existing, tags.close);
      EndFirstGrows(tags, existing, block);
    }
  }

  /** The same for the file: the first write of a missing file is always settled. */
  lemma FileSettlesExactlyInOrder(tags: Tags, file: Option<string>, block: string)
    requires MarkerPair(tags) && WellShaped(tags, block)
    ensures MergedFile(tags, Some(MergedFile(tags, file, block)), block) == MergedFile(tags, file, block)
            <==> (file.None? || InOrder(tags, file.value))
  {
    if file.None? {
      SettledIsFixed(tags, "", block, "");
      assert block == "" + (block + "");
    } else {
      IdempotentExactlyInOrder(tags, file.value, block);
    }
  }

  /** From the given place on there are line breaks up to k, and none at k. */
  ghost predicate BreaksUntil(s: string, from: nat, k: nat) {
    from <= k <= |s| && (forall i :: from <= i < k ==> s[i] == '\n') && (k < |s| ==> s[k] != '\n')
  }

  /** The line break that is put where a piece of text ends without one. */
  function Break(needed: bool): string { if needed then "\n" else "" }

  /**
   The replacement, exactly: what stands before the first start marker, on a line of its own; the block; and what
   stands behind the first end marker, without the line breaks in front of it but with one if the block has none.
   */
  lemma ReplacementMeans(tags: Tags, existing: string, block: string, s: nat, e: nat, k: nat)
    requires Find(existing, tags.open) == Some(s) && Find(existing, tags.close) == Some(e)
    requires BreaksUntil(existing, e + |tags.close|, k)
    ensures s <= |existing|
    ensures var seam := Break(s > 0 && existing[s - 1] != '\n');
            var close := Break(e + |tags.close| < |existing| && (block == "" || block[|block| - 1] != '\n'));
            Upserted(tags, existing, block) == existing[..s] + seam + block + close + existing[k..]
  {
    var from := e + |tags.close|;
    var seam := Break(s > 0 && existing[s - 1] != '\n');
    var close := Break(from < |existing| && (block == "" || block[|block| - 1] != '\n'));
    SeamIs(existing, s, seam);
    CloseIs(existing, block, from, k, close);
    Glued(Opened(existing[..s]), block, Closing(block, existing[from..]), existing[..s], seam, close, existing[k..]);
  }

  lemma Glued(front: string, block: string, closing: string, before: string, seam: string, close: string, rest: string)
    requires front == before + seam && closing == close + rest
    ensures front + block + closing == before + seam + block + close + rest
  {
    Assoc(before + seam + block, close, rest);
  }

  lemma SeamIs(existing: string, s: nat, seam: string)
    requires s <= |existing| && seam == Break(s > 0 && existing[s - 1] != '\n')
    ensures Opened(existing[..s]) == existing[..s] + seam
  {
    var before := existing[..s];
    if before != "" { assert before[|before| - 1..] == [existing[s - 1]]; }
    assert before + "" == before;
  }

  lemma CloseIs(existing: string, block: string, from: nat, k: nat, close: string)
    requires from <= |existing| && BreaksUntil(existing, from, k)
    requires close == Break(from < |existing| && (block == "" || block[|block| - 1] != '\n'))
    ensures Closing(block, existing[from..]) == close + existing[k..]
  {
    if block != "" { assert block[|block| - 1..] == [block[|block| - 1]]; }
    TrimmedTail(existing, from, k);
  }

  lemma TrimmedTail(s: string, from: nat, k: nat)
    requires BreaksUntil(s, from, k)
    ensures TrimStart(s[from..], Newline) == s[k..]
  {
    var tail, rest := s[from..], TrimStart(s[from..], Newline);
    TrimStartIs(tail, Newline);
    var n := |tail| - |rest|;
    assert forall i :: from <= i < from + n ==> s[i] == tail[i - from] == '\n';
    assert n < |tail| ==> rest[0] == tail[n] == s[from + n] != '\n';
    assert from + n == k;
    assert tail[n..] == s[from + n..];
  }

  /** Text outside the first section survives a replacement, up to line breaks at the two seams. */
  lemma ReplacementKeepsSurroundings(tags: Tags, pre: string, mid: string, post: string, block: string)
    requires MarkerPair(tags)
    requires FirstAt(pre + tags.open + mid + tags.close + post, tags.open, |pre|)
    requires FirstAt(pre + tags.open + mid + tags.close + post, tags.close, |pre + tags.open + mid|)
    ensures exists seam, close ::
              && seam in {"", "\n"} && close in {"", "\n"}
              && Upserted(tags, pre + tags.open + mid + tags.close + post, block)
                 == pre + seam + block + close + TrimStart(post, Newline)
  {
    var existing := pre + tags.open + mid + tags.close + post;
    var e := |pre + tags.open + mid|;
    assert Markers(tags, existing) == Some((|pre|, e)) by { MarkersAt(tags, existing, |pre|, e); }
    assert existing[..|pre|] == pre;
    DropPrefix(pre + tags.open + mid + tags.close, post);
    SeamsOnly(pre, block, post);
  }

  lemma SeamsOnly(pre: string, block: string, post: string)
    ensures exists seam, close ::
              && seam in {"", "\n"} && close in {"", "\n"}
              && Opened(pre) + block + Closing(block, post) == pre + seam + block + close + TrimStart(post, Newline)
  {
    var seam := if Opened(pre) == pre then "" else "\n";
    assert Opened(pre) == pre + seam;
    var close := if post == "" || EndsWith(block, "\n") then "" else "\n";
    var kept := TrimStart(post, Newline);
    assert Closing(block, post) == close + kept;
    Assoc(pre + seam + block, close, kept);
  }

  /** Appending keeps the whole text up to its trailing white space. */
  lemma AppendKeepsText(tags: Tags, existing: string, block: string)
    requires MarkerPair(tags)
    requires Markers(tags, existing).None? && Trim(existing, Whitespace) != ""
    ensures exists n: nat :: n <= |existing| && (forall i :: n <= i < |existing| ==> Whitespace(existing[i]))
                             && Upserted(tags, existing, block) == existing[..n] + "\n\n" + block
  {
    TrimEndIs(existing, Whitespace);
    assert TrimEnd(existing, Whitespace) == existing[..|TrimEnd(existing, Whitespace)|];
  }

  // Merging over and over

  function MergedTimes(tags: Tags, existing: string, block: string, n: nat): string {
    if n == 0 then existing else Upserted(tags, MergedTimes(tags, existing, block, n - 1), block)
  }

  /** Only a start marker: the second merge, which swallows text, is the last to change anything. */
  lemma StartOnlySettles(tags: Tags, existing: string, block: string)
    requires MarkerPair(tags) && WellShaped(tags, block)
    requires Find(existing, tags.open).Some? && Find(existing, tags.close).None?
    ensures var twice := Upserted(tags, Upserted(tags, existing, block), block); Upserted(tags, twice, block) == twice
  {
    var s := Find(existing, tags.open).value;
    FindMeans(existing, tags.open);
    FindMeans(existing, tags.close);
    AppendsTo(tags, existing, block, tags.open, s);
    StartOnlyMarkers(tags, existing, block, s);
    IdempotentExactlyInOrder(tags, Upserted(tags, existing, block), block);
  }

  /** An end marker, and no start marker in front of it. */
  predicate EndLeads(tags: Tags, existing: string) {
    var start, end := Find(existing, tags.open), Find(existing, tags.close);
    end.Some? && (start.Some? ==> end.value < start.value)
  }

  /** The text holds the block n times, one copy behind the other. */
  ghost predicate HoldsCopies(text: string, block: string, n: nat)
    decreases n
  {
    n == 0 || exists pre, post :: text == pre + block + post && HoldsCopies(post, block, n - 1)
  }

  /** p stays in front of the section for good: its end marker comes before any start marker. */
  ghost predicate Leading(tags: Tags, p: string, e: nat) {
    e + |tags.close| <= |p| && Opened(p) == p && FirstAt(p, tags.close, e) && Absent(p, tags.open)
  }

  /** The section stands behind such a p, and behind it come n - 1 older copies. */
  ghost predicate Piled(tags: Tags, text: string, block: string, p: string, t: string, e: nat, n: nat) {
    n > 0 && text == p + (block + t) && HoldsCopies(t, block, n - 1) && Leading(tags, p, e)
  }

  lemma FirstPile(tags: Tags, existing: string, block: string) returns (p: string, t: string, e: nat)
    requires MarkerPair(tags) && WellShaped(tags, block) && EndLeads(tags, existing)
    ensures Piled(tags, Upserted(tags, existing, block), block, p, t, e, 1)
  {
    var start := Find(existing, tags.open);
    e := Find(existing, tags.close).value;
    FindMeans(existing, tags.open);
    FindMeans(existing, tags.close);
    if start.Some? {
      p, t := Opened(existing[..start.value]), TrimStart(existing[e + |tags.close|..], Newline);
      ReplacedPile(tags, existing, block, start.value, e, t);
    } else {
      p, t := AppendedTo(existing), "";
      AppendedPile(tags, existing, block, e);
    }
  }

  lemma ReplacedPile(tags: Tags, existing: string, block: string, s: nat, e: nat, t: string)
    requires MarkerPair(tags) && WellShaped(tags, block) && Markers(tags, existing) == Some((s, e))
    requires FirstAt(existing, tags.open, s) && FirstAt(existing, tags.close, e) && e < s
    requires t == TrimStart(existing[e + |tags.close|..], Newline)
    ensures Piled(tags, Upserted(tags, existing, block), block, Opened(existing[..s]), t, e, 1)
  {
    UpsertAt(tags, existing, block, s, e);
    EndFirstMarkers(tags, existing, block, s, e, t);
    OpenedTwice(existing[..s]);
    Apart(existing, tags.close, tags.open, e, s);
    EndBeforeStays(tags, existing, s, e);
    BeforeMarker(existing, tags.open, tags.open, s);
    OpenedAbsent(existing[..s], tags.open);
  }

  lemma AppendedPile(tags: Tags, existing: string, block: string, e: nat)
    requires MarkerPair(tags) && WellShaped(tags, block)
    requires FirstAt(existing, tags.close, e) && Absent(existing, tags.open)
    requires Find(existing, tags.open).None?
    ensures Piled(tags, Upserted(tags, existing, block), block, AppendedTo(existing), "", e, 1)
  {
    var p := AppendedTo(existing);
    AppendsTo(tags, existing, block, tags.close, e);
    EndOnlyMarkers(tags, existing, block, e);
    AppendedAbsent(existing, tags.open);
    AppendedKeepsFirst(existing, tags.close, e);
    assert p[|p| - 1..] == "\n";
    assert block + "" == block;
  }

  lemma AppendedKeepsFirst(existing: string, m: string, i: nat)
    requires Marker(m) && FirstAt(existing, m, i)
    ensures FirstAt(AppendedTo(existing), m, i)
  {
    forall j | 0 <= j <= i ensures OccursAt(AppendedTo(existing), m, j) <==> OccursAt(existing, m, j) {
      AppendedOccurs(existing, m, j);
    }
  }

  lemma UpsertBehind(tags: Tags, r: string, p: string, gap: string, block: string, tail: string, e: nat)
    requires EndsWith(block, "\n") && tail != "" && tail[0] == '<' && Opened(p) == p
    requires Markers(tags, r) == Some((|p|, e)) && |p| <= |r| && e + |tags.close| <= |r|
    requires r[..|p|] == p && r[e + |tags.close|..] == gap + tail
    ensures Upserted(tags, r, block) == p + (block + (TrimStart(gap, Newline) + tail))
  {
    UpsertAt(tags, r, block, |p|, e);
    TrimStartOf(gap, tail, Newline);
  }

  /** Merging there writes the section behind p again and keeps all that stood there. */
  lemma MergedPile(tags: Tags, p: string, block: string, t: string, e: nat) returns (x: string)
    requires MarkerPair(tags) && WellShaped(tags, block) && Leading(tags, p, e)
    ensures Upserted(tags, p + (block + t), block) == p + (block + (x + (block + t)))
  {
    var gap := p[e + |tags.close|..];
    x := TrimStart(gap, Newline);
    ShapeFacts(tags, block);
    StaysPiled(tags, block, p, t, e);
    DropPrefix(p, block + t);
    SuffixOf(p, block + t, e + |tags.close|);
    UpsertBehind(tags, p + (block + t), p, gap, block, block + t, e);
  }

  lemma SuffixOf(p: string, tail: string, from: nat)
    requires from <= |p|
    ensures (p + tail)[from..] == p[from..] + tail
  {
  }

  /** One more merge puts a new copy in front of the older ones and keeps what stands before. */
  lemma PileGrows(tags: Tags, text: string, block: string, p: string, t: string, e: nat, n: nat) returns (t': string)
    requires MarkerPair(tags) && WellShaped(tags, block) && Piled(tags, text, block, p, t, e, n)
    ensures Piled(tags, Upserted(tags, text, block), block, p, t', e, n + 1)
    ensures |t'| >= |block| + |t|
  {
    t' := GrownPile(tags, block, p, t, e, n - 1);
  }

  lemma GrownPile(tags: Tags, block: string, p: string, t: string, e: nat, n: nat) returns (t': string)
    requires MarkerPair(tags) && WellShaped(tags, block) && Leading(tags, p, e) && HoldsCopies(t, block, n)
    ensures Upserted(tags, p + (block + t), block) == p + (block + t')
    ensures HoldsCopies(t', block, n + 1) && |t'| >= |block| + |t|
  {
    var x := MergedPile(tags, p, block, t, e);
    t' := x + (block + t);
    CopyInFront(x, block, t, n);
  }

  lemma CopyInFront(pre: string, block: string, t: string, n: nat)
    requires HoldsCopies(t, block, n)
    ensures HoldsCopies(pre + (block + t), block, n + 1)
  {
    Assoc(pre, block, t);
  }

  lemma StaysPiled(tags: Tags, block: string, p: string, t: string, e: nat)
    requires MarkerPair(tags) && WellShaped(tags, block) && Leading(tags, p, e)
    ensures Markers(tags, p + (block + t)) == Some((|p|, e))
  {
    ShapeFacts(tags, block);
    FirstKept(p, block + t, tags.close, e);
    FirstInBlock(p, block, t, tags.open, 0);
    MarkersAt(tags, p + (block + t), |p|, e);
  }

  lemma {:induction false} MergesPile(tags: Tags, existing: string, block: string, n: nat)
      returns (p: string, t: string, e: nat)
    requires MarkerPair(tags) && WellShaped(tags, block) && EndLeads(tags, existing) && n > 0
    ensures Piled(tags, MergedTimes(tags, existing, block, n), block, p, t, e, n)
  {
    if n == 1 {
      assert MergedTimes(tags, existing, block, 0) == existing;
      p, t, e := FirstPile(tags, existing, block);
    } else {
      p, t, e := MergesPile(tags, existing, block, n - 1);
      t := PileGrows(tags, MergedTimes(tags, existing, block, n - 1), block, p, t, e, n - 1);
    }
  }

  /**
   An end marker in front, alone or not: after n merges the text holds n copies of the section,
   and every further merge makes it longer by the section at least.
   */
  lemma EveryMergeAddsASection(tags: Tags, existing: string, block: string, n: nat)
    requires MarkerPair(tags) && WellShaped(tags, block) && EndLeads(tags, existing) && n > 0
    ensures HoldsCopies(MergedTimes(tags, existing, block, n), block, n)
    ensures |MergedTimes(tags, existing, block, n + 1)| >= |MergedTimes(tags, existing, block, n)| + |block|
  {
    var p, t, e := MergesPile(tags, existing, block, n);
    Assoc(p, block, t);
    CopyInFront(p, block, t, n - 1);
    var t' := PileGrows(tags, MergedTimes(tags, existing, block, n), block, p, t, e, n);
  }
}
