/** Strings as the components use them: trimming, searching, joining and splitting. */
module Text {
  import opened Basics

  type CharClass = char -> bool

  /** Unicode White_Space, the class `str::trim` removes in Rust. */
  predicate Whitespace(c: char) {
    || 0x09 as char <= c <= 0x0D as char
    || c as int in {0x20, 0x85, 0xA0, 0x1680, 0x2028, 0x2029, 0x202F, 0x205F, 0x3000}
    || 0x2000 as char <= c <= 0x200A as char
  }

  // Trimming

  function TrimStart(s: string, ws: CharClass): (r: string)
    ensures |r| <= |s|
  {
    if s != "" && ws(s[0]) then TrimStart(s[1..], ws) else s
  }

  function TrimEnd(s: string, ws: CharClass): (r: string)
    ensures |r| <= |s|
  {
    if s != "" && ws(s[|s| - 1]) then TrimEnd(s[..|s| - 1], ws) else s
  }

  /** Only leading blanks go, and all of them do. */
  lemma {:induction false} TrimStartIs(s: string, ws: CharClass)
    ensures var r := TrimStart(s, ws);
            && r == s[|s| - |r|..] && (r != "" ==> !ws(r[0]))
            && forall i :: 0 <= i < |s| - |r| ==> ws(s[i])
  {
    if s != "" && ws(s[0]) {
      TrimStartIs(s[1..], ws);
      var r := TrimStart(s, ws);
      assert forall i :: 1 <= i < |s| - |r| ==> s[i] == s[1..][i - 1];
    }
  }

  lemma {:induction false} TrimEndIs(s: string, ws: CharClass)
    ensures var r := TrimEnd(s, ws);
            && r == s[..|r|] && (r != "" ==> !ws(r[|r| - 1]))
            && forall i :: |r| <= i < |s| ==> ws(s[i])
  {
    if s != "" && ws(s[|s| - 1]) {
      TrimEndIs(s[..|s| - 1], ws);
    }
  }

  function Trim(s: string, ws: CharClass): string { TrimEnd(TrimStart(s, ws), ws) }

  lemma {:induction false} TrimStartOf(pre: string, rest: string, ws: CharClass)
    requires rest != [] && !ws(rest[0])
    ensures TrimStart(pre + rest, ws) == TrimStart(pre, ws) + rest
  {
    if pre == [] {
      assert pre + rest == rest;
    } else if ws(pre[0]) {
      assert (pre + rest)[1..] == pre[1..] + rest;
      TrimStartOf(pre[1..], rest, ws);
    }
  }

  lemma {:induction false} TrimEndOf(rest: string, post: string, ws: CharClass)
    requires rest != [] && !ws(rest[|rest| - 1])
    ensures TrimEnd(rest + post, ws) == rest + TrimEnd(post, ws)
  {
    if post == [] {
      assert rest + post == rest;
    } else if ws(post[|post| - 1]) {
      assert (rest + post)[..|rest + post| - 1] == rest + post[..|post| - 1];
      TrimEndOf(rest, post[..|post| - 1], ws);
    }
  }

  /** Trimming removes exactly the outer blanks: whatever lies between two non-blanks survives. */
  lemma TrimAround(pre: string, core: string, post: string, ws: CharClass)
    requires core != [] && !ws(core[0]) && !ws(core[|core| - 1])
    ensures Trim(pre + core + post, ws) == TrimStart(pre, ws) + core + TrimEnd(post, ws)
  {
    TrimStartBefore(pre, core, post, ws);
    TrimEndAfter(TrimStart(pre, ws), core, post, ws);
  }

  lemma TrimStartBefore(pre: string, core: string, post: string, ws: CharClass)
    requires core != [] && !ws(core[0])
    ensures TrimStart(pre + core + post, ws) == TrimStart(pre, ws) + core + post
  {
    var tail := core + post;
    assert tail[0] == core[0];
    TrimStartOf(pre, tail, ws);
    Assoc(pre, core, post);
    Assoc(TrimStart(pre, ws), core, post);
  }

  lemma Assoc(a: string, b: string, c: string)
    ensures a + (b + c) == a + b + c
  {
  }

  lemma TrimEndAfter(left: string, core: string, post: string, ws: CharClass)
    requires core != [] && !ws(core[|core| - 1])
    ensures TrimEnd(left + core + post, ws) == left + core + TrimEnd(post, ws)
  {
    var head := left + core;
    assert head[|head| - 1] == core[|core| - 1];
    TrimEndOf(head, post, ws);
  }

  lemma SplitAt(s: string, k: nat)
    requires k <= |s|
    ensures s == s[..k] + s[k..]
  {
  }

  lemma DropPrefix(a: string, b: string)
    ensures (a + b)[|a|..] == b && (a + b)[..|a|] == a
  {
  }

  // Searching

  ghost predicate OccursAt(s: string, pat: string, i: int) {
    0 <= i && i + |pat| <= |s| && s[i..i + |pat|] == pat
  }

  ghost predicate FirstAt(s: string, pat: string, i: int) {
    OccursAt(s, pat, i) && forall j :: 0 <= j < i ==> !OccursAt(s, pat, j)
  }

  /** `str::find`: where pat occurs first at or after position `from`. */
  function FindFrom(s: string, pat: string, from: nat): (r: Option<nat>)
    requires from <= |s|
    decreases |s| - from
    ensures r.Some? ==> from <= r.value && r.value + |pat| <= |s|
  {
    if from + |pat| > |s| then None
    else if s[from..from + |pat|] == pat then Some(from)
    else if from == |s| then None
    else FindFrom(s, pat, from + 1)
  }

  function Find(s: string, pat: string): (r: Option<nat>)
    ensures r.Some? ==> r.value + |pat| <= |s|
  {
    FindFrom(s, pat, 0)
  }

  lemma {:induction false} FindFromMeans(s: string, pat: string, from: nat)
    requires from <= |s|
    decreases |s| - from
    ensures var r := FindFrom(s, pat, from);
            && (r.Some? ==> OccursAt(s, pat, r.value) && forall j :: from <= j < r.value ==> !OccursAt(s, pat, j))
            && (r.None? ==> forall j :: from <= j ==> !OccursAt(s, pat, j))
  {
    if from + |pat| <= |s| && s[from..from + |pat|] != pat && from < |s| {
      FindFromMeans(s, pat, from + 1);
    }
  }

  lemma FindMeans(s: string, pat: string)
    ensures Find(s, pat).Some? ==> FirstAt(s, pat, Find(s, pat).value)
    ensures Find(s, pat).None? ==> forall j :: !OccursAt(s, pat, j)
  {
    FindFromMeans(s, pat, 0);
  }

  lemma FindIs(s: string, pat: string, i: nat)
    requires FirstAt(s, pat, i)
    ensures Find(s, pat) == Some(i)
  {
    FindMeans(s, pat);
  }

  predicate Contains(s: string, pat: string) { Find(s, pat).Some? }

  predicate StartsWith(s: string, pat: string) { |pat| <= |s| && s[..|pat|] == pat }

  predicate EndsWith(s: string, pat: string) { |pat| <= |s| && s[|s| - |pat|..] == pat }

  lemma OccursInside(pre: string, pat: string, post: string)
    ensures OccursAt(pre + pat + post, pat, |pre|)
    ensures Contains(pre + pat + post, pat)
  {
    var s := pre + pat + post;
    assert s[|pre|..|pre| + |pat|] == pat;
    assert OccursAt(s, pat, |pre|);
    FindMeans(s, pat);
  }

  // Joining

  function Join(parts: seq<string>, sep: string): string {
    if parts == [] then ""
    else if |parts| == 1 then parts[0]
    else parts[0] + sep + Join(parts[1..], sep)
  }

  lemma {:induction false} JoinSnoc(parts: seq<string>, last: string, sep: string)
    ensures Join(parts + [last], sep) == if parts == [] then last else Join(parts, sep) + sep + last
  {
    if parts == [] {
    } else {
      assert (parts + [last])[1..] == parts[1..] + [last];
      JoinSnoc(parts[1..], last, sep);
      if |parts| > 1 {
        assert parts[0] + sep + (Join(parts[1..], sep) + sep + last)
            == parts[0] + sep + Join(parts[1..], sep) + sep + last;
      }
    }
  }

  // Splitting

  /** `str::split`: the pieces between separators, empty ones included. */
  function Split(s: string, sep: CharClass): (r: seq<string>)
    ensures r != []
  {
    if s == "" then [""]
    else
      var init, last := Split(s[..|s| - 1], sep), s[|s| - 1];
      if sep(last) then init + [""] else init[..|init| - 1] + [init[|init| - 1] + [last]]
  }

  function NonEmpty(parts: seq<string>): seq<string> {
    if parts == [] then []
    else
      var init, last := NonEmpty(parts[..|parts| - 1]), parts[|parts| - 1];
      if last == "" then init else init + [last]
  }

  /** `str::split_whitespace`. */
  function SplitWhitespace(s: string): seq<string> { NonEmpty(Split(s, Whitespace)) }

  lemma SplitSnoc(s: string, c: char, sep: CharClass)
    ensures Split(s + [c], sep) == var init := Split(s, sep);
            if sep(c) then init + [""] else init[..|init| - 1] + [init[|init| - 1] + [c]]
  {
    assert (s + [c])[..|s|] == s;
  }

  lemma NonEmptySnoc(parts: seq<string>, last: string)
    ensures NonEmpty(parts + [last]) == if last == "" then NonEmpty(parts) else NonEmpty(parts) + [last]
  {
    assert (parts + [last])[..|parts|] == parts;
  }

  /** The piece being collected is empty at the start and right after a separator. */
  lemma LastPiece(s: string, sep: CharClass)
    ensures Split(s, sep)[|Split(s, sep)| - 1] == "" <==> s == "" || sep(s[|s| - 1])
  {
  }

  lemma {:induction false} SplitAppend(s: string, t: string, sep: CharClass)
    requires forall i :: 0 <= i < |t| ==> !sep(t[i])
    ensures Split(s + t, sep) == var init := Split(s, sep); init[..|init| - 1] + [init[|init| - 1] + t]
  {
    var pieces := Split(s, sep);
    var init, last := pieces[..|pieces| - 1], pieces[|pieces| - 1];
    if t == "" {
      assert s + t == s && last + t == last;
    } else {
      var head, c := t[..|t| - 1], t[|t| - 1];
      SplitAppend(s, head, sep);
      SplitExtend(s + head, c, sep, init, last + head);
      assert t == head + [c];
      Assoc(s, head, [c]);
      Assoc(last, head, [c]);
    }
  }

  lemma SplitExtend(s: string, c: char, sep: CharClass, init: seq<string>, last: string)
    requires !sep(c) && Split(s, sep) == init + [last]
    ensures Split(s + [c], sep) == init + [last + [c]]
  {
    SplitSnoc(s, c, sep);
    assert (init + [last])[..|init|] == init;
  }

  /** Joining separator-free, nonempty parts with a separator and splitting again gives the parts. */
  lemma {:induction false} SplitOfJoin(parts: seq<string>, c: char, sep: CharClass)
    requires sep(c)
    requires forall i, k :: 0 <= i < |parts| && 0 <= k < |parts[i]| ==> !sep(parts[i][k])
    requires forall i :: 0 <= i < |parts| ==> parts[i] != ""
    ensures NonEmpty(Split(Join(parts, [c]), sep)) == parts
  {
    if parts == [] {
      assert Split("", sep)[..0] == [];
    } else {
      var init, last := parts[..|parts| - 1], parts[|parts| - 1];
      assert parts == init + [last];
      assert forall i :: 0 <= i < |init| ==> init[i] == parts[i];
      SplitOfJoin(init, c, sep);
      JoinSnoc(init, last, [c]);
      assert forall k :: 0 <= k < |last| ==> !sep(last[k]);
      if init == [] {
        SplitOfOne(last, sep);
      } else {
        SplitBehind(Join(init, [c]), c, last, sep);
      }
    }
  }

  lemma SplitOfOne(last: string, sep: CharClass)
    requires last != "" && forall k :: 0 <= k < |last| ==> !sep(last[k])
    ensures NonEmpty(Split(last, sep)) == [last]
  {
    SplitAppend("", last, sep);
    assert "" + last == last;
    assert Split(last, sep) == [] + [last];
    NonEmptySnoc([], last);
  }

  lemma SplitBehind(joined: string, c: char, last: string, sep: CharClass)
    requires sep(c) && last != "" && forall k :: 0 <= k < |last| ==> !sep(last[k])
    ensures NonEmpty(Split(joined + [c] + last, sep)) == NonEmpty(Split(joined, sep)) + [last]
  {
    var pieces := Split(joined, sep);
    SplitSnoc(joined, c, sep);
    SplitAppend(joined + [c], last, sep);
    assert (pieces + [""])[..|pieces|] == pieces;
    assert "" + last == last;
    NonEmptySnoc(pieces, last);
  }

  // ASCII case

  function LowerChar(c: char): char {
    if 'A' <= c <= 'Z' then (c as int + 32) as char else c
  }

  /** The 26 capital letters become small ones, and no other character changes. */
  lemma LowerCharMeans(c: char, k: nat)
    requires k < 26
    ensures LowerChar("ABCDEFGHIJKLMNOPQRSTUVWXYZ"[k]) == "abcdefghijklmnopqrstuvwxyz"[k]
    ensures c !in "ABCDEFGHIJKLMNOPQRSTUVWXYZ" ==> LowerChar(c) == c
  {
    var upper := "ABCDEFGHIJKLMNOPQRSTUVWXYZ";
    if 'A' <= c <= 'Z' { assert upper[c as int - 'A' as int] == c; }
  }

  function Lower(s: string): (r: string)
    ensures |r| == |s| && forall i :: 0 <= i < |s| ==> r[i] == LowerChar(s[i])
  {
    seq(|s|, i requires 0 <= i < |s| => LowerChar(s[i]))
  }
}
