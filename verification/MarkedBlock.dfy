/**
 Writing the generated Labrador section into a CLAUDE.md that may already hold
 one: the text between the two markers is replaced, or the section is appended.
 */
module MarkedBlock {
  import opened Basics
  import opened Text

  /** The pair of comments that delimit a generated section. */
  datatype Tags = Tags(open: string, close: string)

  const LAB_PACK := Tags("<!-- HARKONNEN LAB PACK START -->", "<!-- HARKONNEN LAB PACK END -->")

  predicate Newline(c: char) { c == '\n' }

  /** The text before the section, closed by a line break unless it is empty. */
  function Opened(before: string): string {
    if !EndsWith(before, "\n") && before != "" then before + "\n" else before
  }

  /** The text after the section, as it is appended to a block. */
  function Closing(block: string, after: string): string {
    if after == "" then "" else (if EndsWith(block, "\n") then "" else "\n") + TrimStart(after, Newline)
  }

  /** Where both markers first occur, if they both do. */
  function Markers(tags: Tags, existing: string): Option<(nat, nat)> {
    var start, end := Find(existing, tags.open), Find(existing, tags.close);
    if start.Some? && end.Some? then Some((start.value, end.value)) else None
  }

  function Upserted(tags: Tags, existing: string, block: string): string {
    match Markers(tags, existing)
    case Some((start, end)) => Opened(existing[..start]) + block + Closing(block, existing[end + |tags.close|..])
    case None =>
      if Trim(existing, Whitespace) == "" then block
      else TrimEnd(existing, Whitespace) + "\n\n" + block
  }

  method UpsertMarkedBlock(existing: string, block: string) returns (merged: string)
    ensures merged == Upserted(LAB_PACK, existing, block)
  {
    var tags := LAB_PACK;
    var start, end := Find(existing, tags.open), Find(existing, tags.close);
    if start.Some? && end.Some? {
      var after := end.value + |tags.close|;
      merged := existing[..start.value];
      if !EndsWith(merged, "\n") && merged != "" {
        merged := merged + "\n";
      }
      assert merged == Opened(existing[..start.value]);
      merged := merged + block;
      ghost var body := merged;
      if after < |existing| {
        if !EndsWith(block, "\n") {
          merged := merged + "\n";
        }
        ghost var tail := TrimStart(existing[after..], Newline);
        merged := merged + TrimStart(existing[after..], Newline);
        if !EndsWith(block, "\n") { Assoc(body, "\n", tail); } else { assert "" + tail == tail; }
      } else {
        assert body + "" == body;
      }
      assert Markers(tags, existing) == Some((start.value, end.value));
      return merged;
    }
    if Trim(existing, Whitespace) == "" {
      merged := block;
    } else {
      merged := TrimEnd(existing, Whitespace) + "\n\n" + block;
    }
  }

  /** What the merge writes to the file; a missing file gets the block alone. */
  function MergedFile(tags: Tags, existing: Option<string>, block: string): string {
    if existing.None? then block else Upserted(tags, existing.value, block)
  }

  /** The generated section: both markers on lines of their own. */
  function SectionBlock(tags: Tags, body: string): string { tags.open + "\n" + body + "\n" + tags.close + "\n" }

  /** A block starts with the start marker, and its first end marker is its last line. */
  ghost predicate WellShaped(tags: Tags, block: string) {
    && OccursAt(block, tags.open, 0)
    && EndsWith(block, "\n")
    && FirstAt(block, tags.close, |block| - 1 - |tags.close|)
  }

  /** The existing text has no marker at all, or its first end marker follows its first start marker. */
  predicate InOrder(tags: Tags, existing: string) {
    match (Find(existing, tags.open), Find(existing, tags.close))
    case (None, None) => true
    case (Some(start), Some(end)) => start < end
    case _ => false
  }

  // The markers cannot overlap: '<' is only their first character, and they hold no line break

  ghost predicate Marker(m: string) {
    && m != "" && m[0] == '<' && m[|m| - 1] == '>'
    && forall k :: 0 < k < |m| ==> m[k] != '<' && m[k] != '\n'
  }

  ghost predicate MarkerPair(tags: Tags) {
    && Marker(tags.open) && Marker(tags.close)
    && exists k :: DifferAt(tags, k)
  }

  predicate DifferAt(tags: Tags, k: nat) {
    k < |tags.open| && k < |tags.close| && tags.open[k] != tags.close[k]
  }

  lemma StartIsMarker()
    ensures Marker(LAB_PACK.open)
  {
  }

  lemma EndIsMarker()
    ensures Marker(LAB_PACK.close)
  {
  }

  lemma LabPackIsMarkerPair()
    ensures MarkerPair(LAB_PACK)
  {
    StartIsMarker();
    EndIsMarker();
    assert DifferAt(LAB_PACK, 24);
  }

  lemma CharOf(s: string, m: string, i: int, k: int)
    requires OccursAt(s, m, i) && 0 <= k < |m|
    ensures s[i + k] == m[k]
  {
    assert s[i..i + |m|][k] == m[k];
  }

  lemma MarkerChars(s: string, m: string, i: int)
    requires Marker(m) && OccursAt(s, m, i)
    ensures s[i] == '<' && s[i + |m| - 1] == '>'
    ensures forall p :: i < p < i + |m| ==> s[p] != '<' && s[p] != '\n'
  {
    CharOf(s, m, i, 0);
    CharOf(s, m, i, |m| - 1);
    forall p | i < p < i + |m| ensures s[p] != '<' && s[p] != '\n' {
      CharOf(s, m, i, p - i);
    }
  }

  lemma BeforeAngle(p: string, rest: string, m: string, i: int)
    requires Marker(m) && rest != "" && rest[0] == '<' && i < |p| && OccursAt(p + rest, m, i)
    ensures OccursAt(p, m, i)
  {
    var s := p + rest;
    MarkerChars(s, m, i);
    assert s[|p|] == '<';
    assert s[i..i + |m|] == p[i..i + |m|];
  }
}
