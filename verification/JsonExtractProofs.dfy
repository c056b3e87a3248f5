/** The extractor returns every JSON object whole. */
module JsonExtractProofs {
  import opened Basics
  import opened Text
  import opened JsonExtract
  import opened JsonGrammar

  // Running the scanner over a piece of text

  function Run(st: ScanState, s: string): ScanState {
    if s == "" then st else Step(Run(st, s[..|s| - 1]), s[|s| - 1])
  }

  lemma {:induction false} RunConcat(st: ScanState, a: string, b: string)
    ensures Run(st, a + b) == Run(Run(st, a), b)
  {
    if b == "" {
      assert a + b == a;
    } else {
      assert (a + b)[..|a + b| - 1] == a + b[..|b| - 1];
      RunConcat(st, a, b[..|b| - 1]);
    }
  }

  /** The positional description is the run from the start. */
  lemma {:induction false} RunIsScannedTo(s: string, n: nat)
    requires n <= |s|
    ensures Run(ScanState(0, false, false), s[..n]) == ScannedTo(s, n)
  {
    if n > 0 {
      RunIsScannedTo(s, n - 1);
      ScanStep(s, n - 1);
      assert s[..n][..n - 1] == s[..n - 1];
    }
  }

  function Outside(depth: int): ScanState { ScanState(depth, false, false) }

  /** Scanning s never dips below d and comes back to depth d, outside any string. */
  ghost predicate Neutral(d: int, s: string) {
    && Run(Outside(d), s) == Outside(d)
    && forall k :: 0 <= k <= |s| ==> Run(Outside(d), s[..k]).depth >= d
  }

  lemma NeutralConcat(d: int, a: string, b: string)
    requires Neutral(d, a) && Neutral(d, b)
    ensures Neutral(d, a + b)
  {
    RunConcat(Outside(d), a, b);
    forall k | 0 <= k <= |a + b| ensures Run(Outside(d), (a + b)[..k]).depth >= d {
      if k <= |a| {
        assert (a + b)[..k] == a[..k];
      } else {
        assert (a + b)[..k] == a + b[..k - |a|];
        RunConcat(Outside(d), a, b[..k - |a|]);
      }
    }
  }

  lemma NeutralConcat3(d: int, a: string, b: string, c: string)
    requires Neutral(d, a) && Neutral(d, b) && Neutral(d, c)
    ensures Neutral(d, a + b + c)
  {
    NeutralConcat(d, a, b);
    NeutralConcat(d, a + b, c);
  }

  /** Characters that mean nothing to the scanner outside a string. */
  predicate Inert(s: string) { forall c :: c in s ==> c !in "{}\"\\" }

  lemma {:induction false} InertIsNeutral(d: int, s: string)
    requires Inert(s)
    ensures Neutral(d, s)
  {
    if s != "" {
      var init := s[..|s| - 1];
      InertIsNeutral(d, init);
      assert s[|s| - 1] in s;
      forall k | 0 <= k <= |s| ensures Run(Outside(d), s[..k]).depth >= d {
        if k < |s| { assert s[..k] == init[..k]; } else { assert s[..k] == s; }
      }
    }
  }

  // Strings

  /** Scanning s inside a string neither leaves the string nor moves the depth. */
  ghost predicate Inside(d: int, s: string) {
    && Run(ScanState(d, true, false), s) == ScanState(d, true, false)
    && forall k :: 0 <= k <= |s| ==> Run(ScanState(d, true, false), s[..k]).depth == d
  }

  lemma InsideConcat(d: int, a: string, b: string)
    requires Inside(d, a) && Inside(d, b)
    ensures Inside(d, a + b)
  {
    var st := ScanState(d, true, false);
    RunConcat(st, a, b);
    forall k | 0 <= k <= |a + b| ensures Run(st, (a + b)[..k]).depth == d {
      if k <= |a| {
        assert (a + b)[..k] == a[..k];
      } else {
        assert (a + b)[..k] == a + b[..k - |a|];
        RunConcat(st, a, b[..k - |a|]);
      }
    }
  }

  lemma {:induction false} UnescapedIsInside(d: int, s: string)
    requires '"' !in s && '\\' !in s
    ensures Inside(d, s)
  {
    if s != "" {
      var init := s[..|s| - 1];
      UnescapedIsInside(d, init);
      forall k | 0 <= k <= |s| ensures Run(ScanState(d, true, false), s[..k]).depth == d {
        if k < |s| { assert s[..k] == init[..k]; } else { assert s[..k] == s; }
      }
    }
  }

  lemma EscapePairIsInside(d: int, c: char)
    ensures Inside(d, ['\\', c])
  {
    var t := ['\\', c];
    assert t[..0] == "" && t[..1] == ['\\'] && t[..1][..0] == "" && t[..2] == t;
    assert Run(ScanState(d, true, false), t[..1]) == ScanState(d, true, true);
  }

  lemma CharIsInside(d: int, sc: StringChar)
    requires ValidChar(sc)
    ensures Inside(d, CharText(sc))
  {
    match sc
    case Plain(c) => UnescapedIsInside(d, [c]);
    case Escape(c) => EscapePairIsInside(d, c);
    case Unicode(hex) =>
      EscapePairIsInside(d, 'u');
      UnescapedIsInside(d, hex);
      InsideConcat(d, "\\u", hex);
  }

  lemma {:induction false} CharsAreInside(d: int, chars: seq<StringChar>)
    requires ValidString(chars)
    ensures Inside(d, CharsText(chars))
  {
    if chars == [] {
      UnescapedIsInside(d, "");
    } else {
      CharIsInside(d, chars[0]);
      CharsAreInside(d, chars[1..]);
      InsideConcat(d, CharText(chars[0]), CharsText(chars[1..]));
    }
  }

  lemma StringIsNeutral(d: int, chars: seq<StringChar>)
    requires ValidString(chars)
    ensures Neutral(d, StringText(chars))
  {
    var body, t := CharsText(chars), StringText(chars);
    CharsAreInside(d, chars);
    assert Run(Outside(d), "\"") == ScanState(d, true, false) by { assert "\""[..0] == ""; }
    forall k | 0 <= k <= |t| ensures Run(Outside(d), t[..k]).depth >= d {
      if 0 < k < |t| {
        assert t[..k] == "\"" + body[..k - 1];
        RunConcat(Outside(d), "\"", body[..k - 1]);
      } else if k == |t| {
        assert t[..k] == t && t[..|t| - 1] == "\"" + body;
        RunConcat(Outside(d), "\"", body);
      }
    }
    assert t[..|t|] == t;
    assert t[..|t| - 1] == "\"" + body;
    RunConcat(Outside(d), "\"", body);
  }

  // Braces

  /** Over "{" inner "}" the scanner leaves depth d at once and returns only at the last character. */
  lemma Braced(d: int, inner: string)
    requires Neutral(d + 1, inner)
    ensures Run(Outside(d), "{" + inner + "}") == Outside(d)
    ensures forall k :: 0 < k <= |inner| + 1 ==> Run(Outside(d), ("{" + inner + "}")[..k]).depth > d
  {
    var t := "{" + inner + "}";
    forall k | 0 < k <= |inner| + 1 ensures Run(Outside(d), t[..k]).depth > d {
      assert t[..k] == "{" + inner[..k - 1];
      AfterBrace(d, inner[..k - 1]);
    }
    assert t[..|t| - 1] == "{" + inner;
    AfterBrace(d, inner);
  }

  lemma AfterBrace(d: int, rest: string)
    ensures Run(Outside(d), "{" + rest) == Run(Outside(d + 1), rest)
  {
    assert "{"[..0] == "";
    RunConcat(Outside(d), "{", rest);
  }

  lemma BracedIsNeutral(d: int, inner: string)
    requires Neutral(d + 1, inner)
    ensures Neutral(d, "{" + inner + "}")
  {
    Braced(d, inner);
    var t := "{" + inner + "}";
    forall k | 0 <= k <= |t| ensures Run(Outside(d), t[..k]).depth >= d {
      if k == |t| { assert t[..k] == t; }
    }
  }

  // Every value is neutral, by induction on its derivation

  lemma {:induction false} ValueIsNeutral(d: int, v: Value)
    requires Valid(v)
    ensures Neutral(d, ValueText(v))
    decreases v, 0
  {
    match v
    case Literal(name) => InertIsNeutral(d, name);
    case Num(number) =>
      NumberIsInert(number);
      InertIsNeutral(d, NumberText(number));
    case Str(chars) => StringIsNeutral(d, chars);
    case Arr(open, elements, close) =>
      ElementsAreNeutral(d, elements);
      InertIsNeutral(d, open);
      InertIsNeutral(d, close);
      NeutralConcat3(d, open, ElementsText(elements), close);
      InertIsNeutral(d, "[");
      InertIsNeutral(d, "]");
      NeutralConcat3(d, "[", open + ElementsText(elements) + close, "]");
    case Obj(open, members, close) =>
      InsideIsNeutral(d + 1, v);
      BracedIsNeutral(d, open + MembersText(members) + close);
  }

  lemma {:induction false} InsideIsNeutral(d: int, v: Value)
    requires Valid(v) && v.Obj?
    ensures Neutral(d, v.open + MembersText(v.members) + v.close)
    decreases v.members, 1
  {
    MembersAreNeutral(d, v.members);
    InertIsNeutral(d, v.open);
    InertIsNeutral(d, v.close);
    NeutralConcat3(d, v.open, MembersText(v.members), v.close);
  }

  lemma {:induction false} ElementsAreNeutral(d: int, es: Elements)
    requires ValidElements(es)
    ensures Neutral(d, ElementsText(es))
    decreases es, 0
  {
    match es
    case NoElements => InertIsNeutral(d, "");
    case Element(value, before, after, rest) =>
      ValueIsNeutral(d, value);
      if !rest.NoElements? {
        SeparatorIsNeutral(d, before, ",", after);
        ElementsAreNeutral(d, rest);
        NeutralConcat3(d, ValueText(value), before + "," + after, ElementsText(rest));
      }
  }

  lemma {:induction false} MembersAreNeutral(d: int, ms: Members)
    requires ValidMembers(ms)
    ensures Neutral(d, MembersText(ms))
    decreases ms, 0
  {
    match ms
    case NoMembers => InertIsNeutral(d, "");
    case Member(key, beforeColon, afterColon, value, before, after, rest) =>
      StringIsNeutral(d, key);
      SeparatorIsNeutral(d, beforeColon, ":", afterColon);
      ValueIsNeutral(d, value);
      NeutralConcat3(d, StringText(key), beforeColon + ":" + afterColon, ValueText(value));
      if !rest.NoMembers? {
        var pair := StringText(key) + (beforeColon + ":" + afterColon) + ValueText(value);
        SeparatorIsNeutral(d, before, ",", after);
        MembersAreNeutral(d, rest);
        NeutralConcat3(d, pair, before + "," + after, MembersText(rest));
      }
  }

  lemma SeparatorIsNeutral(d: int, before: string, mark: string, after: string)
    requires Blank(before) && mark in {",", ":"} && Blank(after)
    ensures Neutral(d, before + mark + after)
  {
    InertIsNeutral(d, before);
    InertIsNeutral(d, mark);
    InertIsNeutral(d, after);
    NeutralConcat3(d, before, mark, after);
  }

  lemma NumberIsInert(n: Number)
    requires ValidNumber(n)
    ensures Inert(NumberText(n))
  {
    forall c | c in NumberText(n) ensures c !in "{}\"\\" {
      assert c in "-.+eE" || '0' <= c <= '9';
    }
  }

  // Main results

  /** An object text is its own shortest balanced prefix, whatever follows it. */
  lemma ObjectIsShortest(o: Value, post: string)
    requires Valid(o) && o.Obj?
    ensures ShortestBalanced(ValueText(o) + post, |ValueText(o)|)
  {
    var t, s := ValueText(o), ValueText(o) + post;
    var inner := o.open + MembersText(o.members) + o.close;
    InsideIsNeutral(1, o);
    Braced(0, inner);
    forall j | 0 < j <= |t| ensures if j < |t| then Depth(s, j) > 0 else Depth(s, j) == 0 {
      RunIsScannedTo(s, j);
      assert s[..j] == t[..j];
      if j == |t| { assert t[..j] == t; }
    }
  }

  lemma PrefixAvoids(pre: string, c: char, rest: string, mark: string)
    requires rest != "" && rest[0] == c && c !in mark && StartsWith(pre + rest, mark)
    ensures |mark| <= |pre| && (pre + rest)[|mark|..] == pre[|mark|..] + rest
  {
    var s := pre + rest;
    assert s[|pre|] == c;
    assert forall i :: 0 <= i < |mark| ==> s[i] == s[..|mark|][i] == mark[i] && mark[i] in mark;
  }

  lemma SuffixAvoids(rest: string, c: char, post: string, mark: string)
    requires rest != "" && rest[|rest| - 1] == c && c !in mark && EndsWith(rest + post, mark)
    ensures |mark| <= |post| && (rest + post)[..|rest + post| - |mark|] == rest + post[..|post| - |mark|]
  {
    var s := rest + post;
    var at := |s| - |mark|;
    assert s[|rest| - 1] == c;
    assert forall i :: at <= i < |s| ==> s[i] == s[at..][i - at] == mark[i - at] && mark[i - at] in mark;
  }

  lemma OpeningFenceKeeps(pre: string, obj: string, post: string) returns (pre': string)
    requires '{' !in pre && obj != "" && obj[0] == '{' && StartsWith(pre + (obj + post), FENCE)
    ensures '{' !in pre' && DropOpeningFence(pre + (obj + post)) == pre' + (obj + post)
  {
    var tail := obj + post;
    assert tail[0] == '{';
    PrefixAvoids(pre, '{', tail, FENCE);
    pre' := pre[|FENCE|..];
    if StartsWith(pre' + tail, JSON_TAG) {
      PrefixAvoids(pre', '{', tail, JSON_TAG);
      pre' := pre'[|JSON_TAG|..];
    }
    TrimStartOf(pre', tail, PyWhitespace);
    TrimStartIs(pre', PyWhitespace);
    pre' := TrimStart(pre', PyWhitespace);
  }

  lemma ClosingFenceKeeps(head: string, post: string) returns (post': string)
    requires head != "" && head[|head| - 1] == '}'
    ensures DropClosingFence(head + post) == head + post'
  {
    post' := post;
    if EndsWith(head + post, FENCE) {
      SuffixAvoids(head, '}', post, FENCE);
      var cut := post[..|post| - |FENCE|];
      TrimEndOf(head, cut, PyWhitespace);
      post' := TrimEnd(cut, PyWhitespace);
    }
  }

  /** Fence and white-space removal leaves the object and its brace-free surroundings in place. */
  lemma UnfencedKeepsObject(pre: string, obj: string, post: string) returns (pre': string, post': string)
    requires '{' !in pre && obj != "" && obj[0] == '{' && obj[|obj| - 1] == '}'
    ensures Unfenced(pre + obj + post) == pre' + (obj + post') && '{' !in pre'
  {
    TrimAround(pre, obj, post, PyWhitespace);
    TrimStartIs(pre, PyWhitespace);
    pre', post' := TrimStart(pre, PyWhitespace), TrimEnd(post, PyWhitespace);
    Assoc(pre', obj, post');
    var stripped := pre' + (obj + post');
    if StartsWith(stripped, FENCE) {
      pre' := OpeningFenceKeeps(pre', obj, post');
      Assoc(pre', obj, post');
      var head := pre' + obj;
      assert head[|head| - 1] == obj[|obj| - 1];
      post' := ClosingFenceKeeps(head, post');
      Assoc(pre', obj, post');
    }
  }

  lemma FirstBraceIs(pre: string, rest: string)
    requires '{' !in pre && rest != "" && rest[0] == '{'
    ensures FirstBrace(pre + rest) == Some(|pre|)
  {
    var t := pre + rest;
    assert t[|pre|] == '{';
    var k := FirstBrace(t).value;
    assert forall j :: 0 <= j < |pre| ==> t[j] == pre[j] && pre[j] in pre;
    assert forall j :: 0 <= j < k ==> t[j] == t[..k][j] && t[..k][j] in t[..k];
  }

  /** The central law: any JSON object after a brace-free prefix comes back exactly, whatever follows. */
  lemma ExtractsEveryObject(pre: string, o: Value, post: string)
    requires '{' !in pre && Valid(o) && o.Obj?
    ensures Extraction(pre + ValueText(o) + post) == Some(ValueText(o))
  {
    var obj := ValueText(o);
    var pre', post' := UnfencedKeepsObject(pre, obj, post);
    var tail := obj + post';
    assert tail[0] == '{';
    FirstBraceIs(pre', tail);
    assert (pre' + tail)[|pre'|..] == tail;
    ObjectIsShortest(o, post');
    ShortestIsUnique(tail, |obj|);
    assert tail[..|obj|] == obj;
  }

  /** a, r, b cut text t so that r starts at t's first brace and is its shortest balanced prefix. */
  ghost predicate CutsFirstObject(t: string, a: string, r: string, b: string) {
    && t == a + (r + b) && '{' !in a
    && r != "" && r[0] == '{' && ShortestBalanced(r + b, |r|)
  }

  lemma CutIsReturned(text: string, a: string, r: string, b: string)
    requires CutsFirstObject(Unfenced(text), a, r, b)
    ensures Extraction(text) == Some(r)
  {
    var tail := r + b;
    assert tail[0] == '{';
    FirstBraceIs(a, tail);
    assert (a + tail)[|a|..] == tail;
    ShortestIsUnique(tail, |r|);
    assert tail[..|r|] == r;
  }

  lemma ReturnedIsCut(text: string, r: string) returns (a: string, b: string)
    requires Extraction(text) == Some(r)
    ensures CutsFirstObject(Unfenced(text), a, r, b)
  {
    var t := Unfenced(text);
    var start := FirstBrace(t).value;
    var tail := t[start..];
    var e := ShortestBalance(tail).value;
    a, b := t[..start], tail[e..];
    SplitAt(t, start);
    SplitAt(tail, e);
    assert r == tail[..e];
    assert r[0] == tail[0];
  }

  // Stripping and unfencing remove no brace, so they cannot be told from the answer

  lemma TrimIsPiece(s: string, ws: CharClass) returns (x: string, y: string)
    requires !ws('{') && !ws('}')
    ensures s == x + (Trim(s, ws) + y) && '{' !in x && '}' !in y
  {
    var t := TrimStart(s, ws);
    TrimStartIs(s, ws);
    TrimEndIs(t, ws);
    x, y := s[..|s| - |t|], t[|Trim(s, ws)|..];
    SplitAt(s, |s| - |t|);
    SplitAt(t, |Trim(s, ws)|);
  }

  lemma OpeningIsPiece(s: string) returns (x: string)
    requires StartsWith(s, FENCE)
    ensures s == x + DropOpeningFence(s) && '{' !in x
  {
    var n := if StartsWith(s[|FENCE|..], JSON_TAG) then |FENCE| + |JSON_TAG| else |FENCE|;
    var front, rest := s[..n], s[n..];
    assert '{' !in front by {
      assert front == FENCE + if n == |FENCE| then "" else JSON_TAG;
    }
    assert rest == if n == |FENCE| then s[|FENCE|..] else s[|FENCE|..][|JSON_TAG|..];
    TrimStartIs(rest, PyWhitespace);
    var blank := rest[..|rest| - |DropOpeningFence(s)|];
    SplitAt(rest, |rest| - |DropOpeningFence(s)|);
    SplitAt(s, n);
    Assoc(front, blank, DropOpeningFence(s));
    x := front + blank;
  }

  lemma ClosingIsPiece(s: string) returns (y: string)
    ensures s == DropClosingFence(s) + y && '}' !in y
  {
    if EndsWith(s, FENCE) {
      var n := |s| - |FENCE|;
      var body, kept := s[..n], DropClosingFence(s);
      TrimEndIs(body, PyWhitespace);
      var blank := body[|kept|..];
      SplitAt(body, |kept|);
      SplitAt(s, n);
      Assoc(kept, blank, FENCE);
      y := blank + FENCE;
    } else {
      y := "";
      assert s == s + "";
    }
  }

  lemma UnfencedIsPiece(text: string) returns (x: string, y: string)
    ensures text == x + (Unfenced(text) + y) && '{' !in x && '}' !in y
  {
    x, y := TrimIsPiece(text, PyWhitespace);
    var stripped := Trim(text, PyWhitespace);
    if StartsWith(stripped, FENCE) {
      var x' := OpeningIsPiece(stripped);
      var y' := ClosingIsPiece(DropOpeningFence(stripped));
      Regrouped(x, x', Unfenced(text), y', y);
      x, y := x + x', y' + y;
    }
  }

  lemma Regrouped(x: string, x': string, u: string, y': string, y: string)
    ensures x + ((x' + (u + y')) + y) == (x + x') + (u + (y' + y))
  {
  }

  /** The depth before n is a matter of the first n characters. */
  lemma DepthOfPrefix(s: string, t: string, n: nat)
    requires n <= |s| && n <= |t| && s[..n] == t[..n]
    ensures Depth(s, n) == Depth(t, n)
  {
    RunIsScannedTo(s, n);
    RunIsScannedTo(t, n);
  }

  lemma BalancedWhateverFollows(r: string, b: string, b': string)
    requires ShortestBalanced(r + b, |r|)
    ensures ShortestBalanced(r + b', |r|)
  {
    forall j | 0 < j <= |r| ensures Depth(r + b, j) == Depth(r + b', j) {
      assert (r + b)[..j] == r[..j] == (r + b')[..j];
      DepthOfPrefix(r + b, r + b', j);
    }
  }

  lemma {:induction false} PositiveUntilBalanced(s: string, e: nat, j: nat)
    requires ShortestBalanced(s, e) && s[0] == '{' && 0 < j < e
    ensures Depth(s, j) > 0
    decreases j
  {
    if j > 1 { PositiveUntilBalanced(s, e, j - 1); }
  }

  lemma BalancedEndsInBrace(s: string, e: nat)
    requires ShortestBalanced(s, e) && s[0] == '{'
    ensures s[e - 1] == '}'
  {
    OnlyBracesMove(s, 0);
    assert Depth(s, 1) == 1;
    PositiveUntilBalanced(s, e, e - 1);
    OnlyBracesMove(s, e - 1);
  }

  lemma OnlyBracesMove(s: string, n: nat)
    requires n < |s|
    ensures Depth(s, n + 1) < Depth(s, n) ==> s[n] == '}'
    ensures n == 0 && s[0] == '{' ==> Depth(s, 1) == 1
  {
    if n == 0 { assert !Escaped(s, 0) && Quotes(s, 0) == 0 && Structural(s, 0) && Depth(s, 0) == 0; }
  }

  lemma CutOfPiece(x: string, u: string, y: string, a: string, r: string, b: string)
    requires CutsFirstObject(u, a, r, b) && '{' !in x
    ensures CutsFirstObject(x + (u + y), x + a, r, b + y)
  {
    BalancedWhateverFollows(r, b, b + y);
    Regrouped(x, a, r, b, y);
    assert u == a + (r + b);
  }

  lemma CutInPiece(x: string, u: string, y: string, a: string, r: string, b: string) returns (a': string, b': string)
    requires CutsFirstObject(x + (u + y), a, r, b) && '{' !in x && '}' !in y
    ensures CutsFirstObject(u, a', r, b')
  {
    var t := x + (u + y);
    var n, m := |x|, |x| + |u|;
    BalancedEndsInBrace(r + b, |r|);
    var last := |a| + |r| - 1;
    assert t[|a|] == '{' && t[last] == '}';
    assert forall i :: 0 <= i < n ==> t[i] == x[i] && x[i] in x;
    assert forall i :: m <= i < |t| ==> t[i] == y[i - m] && y[i - m] in y;
    a', b' := a[n..], u[last + 1 - n..];
    assert u == t[n..m];
    PieceIsCut(t, n, m, |a|, last + 1);
    assert t[n..|a|] == a' && t[|a|..last + 1] == r && t[last + 1..m] == b';
    BalancedWhateverFollows(r, b, b');
  }

  lemma PieceIsCut(t: string, n: nat, m: nat, i: nat, j: nat)
    requires n <= i <= j <= m <= |t|
    ensures t[n..m] == t[n..i] + (t[i..j] + t[j..m])
  {
  }

  /**
   What the extractor returns, said of the reply itself: r, if and only if r starts at the first brace of the text
   and is the shortest balanced piece from there. So every answer is a piece of the reply, and there is none exactly
   when the braces from the first one on never balance.
   */
  lemma ExtractionMeans(text: string, r: string)
    ensures Extraction(text) == Some(r) <==> exists a, b :: CutsFirstObject(text, a, r, b)
  {
    var x, y := UnfencedIsPiece(text);
    var u := Unfenced(text);
    if Extraction(text) == Some(r) {
      var a, b := ReturnedIsCut(text, r);
      CutOfPiece(x, u, y, a, r, b);
      assert CutsFirstObject(text, x + a, r, b + y);
    }
    forall a, b | CutsFirstObject(text, a, r, b) ensures Extraction(text) == Some(r) {
      var a', b' := CutInPiece(x, u, y, a, r, b);
      CutIsReturned(text, a', r, b');
    }
  }
}
