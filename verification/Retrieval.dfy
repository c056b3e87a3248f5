/** How PackChat normalizes text for retrieval, and what it derives from the normalized text. */
module Retrieval {
  import opened Basics
  import opened Text

  const DEDUPE_TOKENS := 80
  const MIN_TERM_LENGTH := 3

  const STOPWORDS: set<string> := {
    "a", "an", "and", "are", "at", "be", "did", "do", "does", "for", "from", "had", "have",
    "how", "i", "if", "in", "is", "it", "my", "of", "on", "or", "that", "the", "to", "was",
    "what", "when", "where", "which", "who", "why", "with", "would", "you", "your"}

  predicate Alphanumeric(c: char) { 'a' <= c <= 'z' || 'A' <= c <= 'Z' || '0' <= c <= '9' }

  predicate Separator(c: char) { !Alphanumeric(c) }

  function LowerAll(parts: seq<string>): seq<string> {
    seq(|parts|, i requires 0 <= i < |parts| => Lower(parts[i]))
  }

  /** Splitting at everything that is no letter or digit, dropping empty pieces, lower-casing. */
  function Tokens(s: string): seq<string> { LowerAll(NonEmpty(Split(s, Separator))) }

  /** The tokens with single spaces between them. */
  function Normalized(s: string): string { Join(Tokens(s), " ") }

  /** The character loop: a word separator is written when the next separator is met, then trimmed. */
  method NormalizeRetrievalText(value: string) returns (r: string)
    ensures r == Normalized(value)
  {
    var out := "";
    var prevSpace := false;
    NoTokens();
    for i := 0 to |value|
      invariant out == Spaced(value[..i])
      invariant prevSpace == (i > 0 && !Alphanumeric(value[i - 1]))
    {
      SpacedAt(value, i);
      var ch := value[i];
      var mapped := if Alphanumeric(ch) then LowerChar(ch) else ' ';
      if mapped == ' ' {
        if !prevSpace && out != "" {
          out := out + " ";
        }
        prevSpace := true;
      } else {
        out := out + [mapped];
        prevSpace := false;
      }
    }
    assert value[..|value|] == value;
    TrimmedSpaced(value);
    r := Trim(out, Whitespace);
  }

  /** The loop's buffer over s: the tokens, and one space if a separator follows them. */
  function Spaced(s: string): string {
    Normalized(s) + if s != "" && Separator(s[|s| - 1]) && Tokens(s) != [] then " " else ""
  }

  /** retrieval_terms: the tokens worth searching for, each once, in order. */
  method RetrievalTerms(query: string) returns (terms: seq<string>)
    ensures terms == TermsOf(Tokens(query))
  {
    var normalized := NormalizeRetrievalText(query);
    NormalizedSplits(query);
    var tokens := SplitWhitespace(normalized);
    terms := [];
    for i := 0 to |tokens|
      invariant terms == TermsOf(tokens[..i])
    {
      assert tokens[..i + 1][..i] == tokens[..i];
      var token := tokens[i];
      if |token| < MIN_TERM_LENGTH || token in STOPWORDS { continue; }
      if token !in terms { terms := terms + [token]; }
    }
    assert tokens[..|tokens|] == tokens;
  }

  function TermsOf(tokens: seq<string>): seq<string> {
    if tokens == [] then []
    else
      var init, last := TermsOf(tokens[..|tokens| - 1]), tokens[|tokens| - 1];
      if |last| < MIN_TERM_LENGTH || last in STOPWORDS || last in init then init else init + [last]
  }

  /** memory_candidate_dedupe_key */
  function DedupeKey(content: string): string {
    var tokens := SplitWhitespace(Normalized(content));
    Join(if |tokens| <= DEDUPE_TOKENS then tokens else tokens[..DEDUPE_TOKENS], " ")
  }

  // The loop, one character at a time

  predicate Token(t: string) { t != "" && forall i :: 0 <= i < |t| ==> Alphanumeric(t[i]) && LowerChar(t[i]) == t[i] }

  ghost predicate AllTokens(ts: seq<string>) { forall i :: 0 <= i < |ts| ==> Token(ts[i]) }

  lemma {:induction false} PiecesAreClean(s: string)
    ensures forall i, k :: 0 <= i < |Split(s, Separator)| && 0 <= k < |Split(s, Separator)[i]| ==>
              Alphanumeric(Split(s, Separator)[i][k])
  {
    if s != "" { PiecesAreClean(s[..|s| - 1]); }
  }

  lemma {:induction false} NonEmptyKeeps(parts: seq<string>)
    ensures forall p :: p in NonEmpty(parts) <==> p in parts && p != ""
  {
    if parts != [] {
      NonEmptyKeeps(parts[..|parts| - 1]);
      assert parts == parts[..|parts| - 1] + [parts[|parts| - 1]];
    }
  }

  lemma TokensAreTokens(s: string)
    ensures AllTokens(Tokens(s))
  {
    var pieces := Split(s, Separator);
    PiecesAreClean(s);
    NonEmptyKeeps(pieces);
    forall i | 0 <= i < |Tokens(s)| ensures Token(Tokens(s)[i]) {
      assert NonEmpty(pieces)[i] in pieces;
    }
  }

  // What the tokens of a text are, by the ways it is put together

  /** The letters and digits are the 26 small letters, the 26 capital letters and the ten digits. */
  lemma AlphanumericMeans(c: char)
    ensures Alphanumeric(c) <==>
              || c in "abcdefghijklmnopqrstuvwxyz" || c in "ABCDEFGHIJKLMNOPQRSTUVWXYZ" || c in "0123456789"
  {
    SmallLetters(c);
    CapitalLetters(c);
    Digits(c);
  }

  lemma SmallLetters(c: char)
    ensures c in "abcdefghijklmnopqrstuvwxyz" <==> 'a' <= c <= 'z'
  {
    var all := "abcdefghijklmnopqrstuvwxyz";
    if 'a' <= c <= 'z' { assert all[c as int - 'a' as int] == c; }
  }

  lemma CapitalLetters(c: char)
    ensures c in "ABCDEFGHIJKLMNOPQRSTUVWXYZ" <==> 'A' <= c <= 'Z'
  {
    var all := "ABCDEFGHIJKLMNOPQRSTUVWXYZ";
    if 'A' <= c <= 'Z' { assert all[c as int - 'A' as int] == c; }
  }

  lemma Digits(c: char)
    ensures c in "0123456789" <==> '0' <= c <= '9'
  {
    var all := "0123456789";
    if '0' <= c <= '9' { assert all[c as int - '0' as int] == c; }
  }

  lemma LowerAllConcat(a: seq<string>, b: seq<string>)
    ensures LowerAll(a + b) == LowerAll(a) + LowerAll(b)
  {
  }

  lemma {:induction false} NonEmptyConcat(a: seq<string>, b: seq<string>)
    ensures NonEmpty(a + b) == NonEmpty(a) + NonEmpty(b)
  {
    if b == [] {
      assert a + b == a;
    } else {
      assert (a + b)[..|a + b| - 1] == a + b[..|b| - 1];
      NonEmptyConcat(a, b[..|b| - 1]);
    }
  }

  lemma {:induction false} SplitAtSeparator(a: string, c: char, b: string, sep: CharClass)
    requires sep(c)
    ensures Split(a + [c] + b, sep) == Split(a, sep) + Split(b, sep)
  {
    if b == "" {
      assert a + [c] + b == a + [c];
      SplitSnoc(a, c, sep);
    } else {
      var init, last := b[..|b| - 1], b[|b| - 1];
      SplitAtSeparator(a, c, init, sep);
      assert b == init + [last] && a + [c] + b == a + [c] + init + [last];
      SplitSnocBehind(a + [c] + init, init, last, Split(a, sep), sep);
    }
  }

  /** One more character: a separator opens an empty piece, any other goes to the last piece. */
  function Grown(pieces: seq<string>, c: char, separates: bool): seq<string>
    requires pieces != []
  {
    if separates then pieces + [""] else pieces[..|pieces| - 1] + [pieces[|pieces| - 1] + [c]]
  }

  lemma GrownBehind(a: seq<string>, b: seq<string>, c: char, separates: bool)
    requires b != []
    ensures Grown(a + b, c, separates) == a + Grown(b, c, separates)
  {
    assert (a + b)[..|a + b| - 1] == a + b[..|b| - 1];
  }

  lemma SplitGrows(s: string, c: char, sep: CharClass)
    ensures Split(s + [c], sep) == Grown(Split(s, sep), c, sep(c))
  {
    SplitSnoc(s, c, sep);
  }

  lemma SplitSnocBehind(whole: string, part: string, last: char, before: seq<string>, sep: CharClass)
    requires Split(whole, sep) == before + Split(part, sep)
    ensures Split(whole + [last], sep) == before + Split(part + [last], sep)
  {
    SplitGrows(whole, last, sep);
    SplitGrows(part, last, sep);
    GrownBehind(before, Split(part, sep), last, sep(last));
  }

  /** Text on both sides of a character that is no letter or digit gives its tokens side by side. */
  lemma TokensApart(a: string, c: char, b: string)
    requires !Alphanumeric(c)
    ensures Tokens(a + [c] + b) == Tokens(a) + Tokens(b)
  {
    SplitAtSeparator(a, c, b, Separator);
    NonEmptyConcat(Split(a, Separator), Split(b, Separator));
    LowerAllConcat(NonEmpty(Split(a, Separator)), NonEmpty(Split(b, Separator)));
  }

  /** A word is one token, in small letters, and no text is none: with TokensApart this says what all tokens are. */
  lemma TokensOfWord(word: string)
    requires forall i :: 0 <= i < |word| ==> Alphanumeric(word[i])
    ensures Tokens(word) == if word == "" then [] else [Lower(word)]
  {
    if word != "" {
      SplitOfOne(word, Separator);
    } else {
      assert [""][..0] == [] && NonEmpty([""]) == [];
    }
  }

  /** The dedupe key is the text of the first 80 tokens. */
  lemma DedupeKeyMeans(content: string)
    ensures DedupeKey(content) == Join(if |Tokens(content)| <= 80 then Tokens(content) else Tokens(content)[..80], " ")
  {
    NormalizedSplits(content);
  }

  lemma LowerAllSnoc(parts: seq<string>, last: string)
    ensures LowerAll(parts + [last]) == LowerAll(parts) + [Lower(last)]
  {
  }

  /** A separator adds nothing; any other character starts a token or extends the last one. */
  lemma TokensSnoc(p: string, c: char)
    ensures Separator(c) ==> Tokens(p + [c]) == Tokens(p)
    ensures !Separator(c) && (p == "" || Separator(p[|p| - 1])) ==> Tokens(p + [c]) == Tokens(p) + [[LowerChar(c)]]
    ensures !Separator(c) && p != "" && !Separator(p[|p| - 1]) ==>
              exists init, last :: Tokens(p) == init + [last] && Tokens(p + [c]) == init + [last + [LowerChar(c)]]
  {
    var pieces := Split(p, Separator);
    var init, last := pieces[..|pieces| - 1], pieces[|pieces| - 1];
    assert pieces == init + [last];
    SplitSnoc(p, c, Separator);
    LastPiece(p, Separator);
    NonEmptySnoc(init, last);
    if Separator(c) {
      NonEmptySnoc(pieces, "");
    } else {
      NonEmptySnoc(init, last + [c]);
      LowerSnoc(NonEmpty(init), last, c);
    }
  }

  lemma LowerSnoc(init: seq<string>, last: string, c: char)
    ensures LowerAll(init + [last]) == LowerAll(init) + [Lower(last)]
    ensures LowerAll(init + [last + [c]]) == LowerAll(init) + [Lower(last) + [LowerChar(c)]]
    ensures last == "" ==> LowerAll(init + [last + [c]]) == LowerAll(init) + [[LowerChar(c)]]
  {
    LowerAllSnoc(init, last);
    LowerAllSnoc(init, last + [c]);
    assert Lower(last + [c]) == Lower(last) + [LowerChar(c)];
    if last == "" { assert Lower(last) + [LowerChar(c)] == [LowerChar(c)]; }
  }

  lemma SpacedAt(value: string, i: nat)
    requires i < |value|
    ensures var before, after := Spaced(value[..i]), Spaced(value[..i + 1]);
            && (Separator(value[i]) ==>
                  after == before + if (i == 0 || !Separator(value[i - 1])) && before != "" then " " else "")
            && (!Separator(value[i]) ==> after == before + [LowerChar(value[i])])
  {
    assert value[..i + 1] == value[..i] + [value[i]];
    SpacedStep(value[..i], value[i]);
  }

  lemma NoTokens()
    ensures Tokens("") == [] && Spaced("") == ""
  {
    assert [""][..0] == [];
  }

  lemma SpacedStep(p: string, c: char)
    ensures Separator(c) ==>
              Spaced(p + [c]) == Spaced(p) + if (p == "" || !Separator(p[|p| - 1])) && Spaced(p) != "" then " " else ""
    ensures !Separator(c) ==> Spaced(p + [c]) == Spaced(p) + [LowerChar(c)]
  {
    if Separator(c) {
      SpacedSeparator(p, c);
    } else if p == "" || Separator(p[|p| - 1]) {
      SpacedOpening(p, c);
    } else {
      SpacedContinuing(p, c);
    }
  }

  /** The joined tokens are empty exactly when there are none. */
  lemma SpacedIsEmpty(p: string)
    ensures Join(Tokens(p), " ") == "" <==> Tokens(p) == []
  {
    TokensAreTokens(p);
    JoinOfTokens(Tokens(p));
  }

  lemma SpacedSeparator(p: string, c: char)
    requires Separator(c)
    ensures Spaced(p + [c]) == Spaced(p) + if (p == "" || !Separator(p[|p| - 1])) && Spaced(p) != "" then " " else ""
  {
    TokensSnoc(p, c);
    SpacedIsEmpty(p);
    NoTokens();
  }

  lemma SpacedOpening(p: string, c: char)
    requires !Separator(c) && (p == "" || Separator(p[|p| - 1]))
    ensures Spaced(p + [c]) == Spaced(p) + [LowerChar(c)]
  {
    TokensSnoc(p, c);
    SpacedIsEmpty(p);
    NoTokens();
    JoinSnoc(Tokens(p), [LowerChar(c)], " ");
  }

  lemma SpacedContinuing(p: string, c: char)
    requires !Separator(c) && p != "" && !Separator(p[|p| - 1])
    ensures Spaced(p + [c]) == Spaced(p) + [LowerChar(c)]
  {
    TokensSnoc(p, c);
    var init, last :| Tokens(p) == init + [last] && Tokens(p + [c]) == init + [last + [LowerChar(c)]];
    JoinOfLongerToken(init, last, LowerChar(c));
  }

  lemma JoinOfLongerToken(init: seq<string>, last: string, c: char)
    ensures Join(init + [last + [c]], " ") == Join(init + [last], " ") + [c]
  {
    JoinSnoc(init, last, " ");
    JoinSnoc(init, last + [c], " ");
  }

  /** Joined tokens start and end with a token character, so trimming cannot touch them. */
  lemma {:induction false} JoinOfTokens(ts: seq<string>)
    requires AllTokens(ts)
    ensures Join(ts, " ") == "" <==> ts == []
    ensures ts != [] ==> var j := Join(ts, " "); Alphanumeric(j[0]) && Alphanumeric(j[|j| - 1])
  {
    if ts != [] {
      assert Token(ts[0]);
      if |ts| > 1 {
        assert AllTokens(ts[1..]) by {
          forall i | 0 <= i < |ts[1..]| ensures Token(ts[1..][i]) { assert ts[1..][i] == ts[i + 1]; }
        }
        JoinOfTokens(ts[1..]);
      }
    }
  }

  lemma TrimmedSpaced(s: string)
    ensures Trim(Spaced(s), Whitespace) == Normalized(s)
  {
    TokensAreTokens(s);
    JoinOfTokens(Tokens(s));
    TrimmedWith(Normalized(s));
  }

  lemma TrimmedWith(core: string)
    requires core != "" ==> Alphanumeric(core[0]) && Alphanumeric(core[|core| - 1])
    ensures Trim(core, Whitespace) == core
    ensures core != "" ==> Trim(core + " ", Whitespace) == core
  {
    assert core + "" == core;
    if core != "" {
      TrimAround("", core, "", Whitespace);
      TrimAround("", core, " ", Whitespace);
      assert " "[..0] == "";
      assert "" + core == core;
    }
  }

  // Main results

  lemma TokensSurviveJoin(ts: seq<string>)
    requires AllTokens(ts)
    ensures Tokens(Join(ts, " ")) == ts && SplitWhitespace(Join(ts, " ")) == ts
  {
    forall i, k | 0 <= i < |ts| && 0 <= k < |ts[i]| ensures !Separator(ts[i][k]) && !Whitespace(ts[i][k]) {
      assert Token(ts[i]);
    }
    forall i | 0 <= i < |ts| ensures ts[i] != "" && Lower(ts[i]) == ts[i] { assert Token(ts[i]); }
    SplitOfJoin(ts, ' ', Separator);
    SplitOfJoin(ts, ' ', Whitespace);
    assert LowerAll(ts) == ts;
  }

  lemma NormalizedSplits(s: string)
    ensures SplitWhitespace(Normalized(s)) == Tokens(s)
  {
    TokensAreTokens(s);
    TokensSurviveJoin(Tokens(s));
  }

  lemma NormalizingIsIdempotent(s: string)
    ensures Normalized(Normalized(s)) == Normalized(s)
  {
    TokensAreTokens(s);
    TokensSurviveJoin(Tokens(s));
  }

  function FirstTokens(s: string): seq<string> {
    if |Tokens(s)| <= DEDUPE_TOKENS then Tokens(s) else Tokens(s)[..DEDUPE_TOKENS]
  }

  /** Two contents are taken for duplicates exactly when their first 80 tokens agree. */
  lemma SameKeyExactly(a: string, b: string)
    ensures DedupeKey(a) == DedupeKey(b) <==> FirstTokens(a) == FirstTokens(b)
  {
    KeyDetermines(a);
    KeyDetermines(b);
  }

  lemma KeyDetermines(s: string)
    ensures DedupeKey(s) == Join(FirstTokens(s), " ") && Tokens(DedupeKey(s)) == FirstTokens(s)
  {
    NormalizedSplits(s);
    TokensAreTokens(s);
    assert AllTokens(FirstTokens(s));
    TokensSurviveJoin(FirstTokens(s));
  }

  /** The terms are the distinct tokens of at least three letters that are no stopword. */
  lemma TermsMean(tokens: seq<string>)
    ensures forall t :: t in TermsOf(tokens) <==> IsTerm(tokens, t)
    ensures forall i, j :: 0 <= i < j < |TermsOf(tokens)| ==> TermsOf(tokens)[i] != TermsOf(tokens)[j]
  {
    forall t ensures t in TermsOf(tokens) <==> IsTerm(tokens, t) {
      TermMeans(tokens, t);
    }
    TermsAreDistinct(tokens);
  }

  predicate IsTerm(tokens: seq<string>, t: string) {
    t in tokens && |t| >= 3 && t !in STOPWORDS
  }

  lemma {:induction false} TermMeans(tokens: seq<string>, t: string)
    ensures t in TermsOf(tokens) <==> IsTerm(tokens, t)
  {
    if tokens != [] {
      TermMeans(tokens[..|tokens| - 1], t);
      assert t in tokens <==> t in tokens[..|tokens| - 1] || t == tokens[|tokens| - 1];
    }
  }

  lemma {:induction false} TermsAreDistinct(tokens: seq<string>)
    ensures forall i, j :: 0 <= i < j < |TermsOf(tokens)| ==> TermsOf(tokens)[i] != TermsOf(tokens)[j]
  {
    if tokens != [] { TermsAreDistinct(tokens[..|tokens| - 1]); }
  }
}
