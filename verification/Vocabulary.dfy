/** The protected-words list of seed.rs: the parser, the `", "` writer, and when the
    two undo each other. */
module Vocabulary {
  import opened Splitting

  /** What the list takes from Unicode: white space and lower-casing. */
  datatype Unicode = Unicode(isSpace: char -> bool, fold: string -> string)

  const MAX_TERM_CHARS: nat := 64
  const MAX_TERMS: nat := 128

  function IsSeparator(): char -> bool { (c: char) => c == ',' || c == '\n' || c == '\r' }

  function TrimStart(u: Unicode, s: string): string {
    if s != "" && u.isSpace(s[0]) then TrimStart(u, s[1..]) else s
  }

  function TrimEnd(u: Unicode, s: string): string {
    if s != "" && u.isSpace(s[|s| - 1]) then TrimEnd(u, s[..|s| - 1]) else s
  }

  function Trim(u: Unicode, s: string): string {
    TrimEnd(u, TrimStart(u, s))
  }

  predicate Acceptable(word: string) {
    word != "" && |word| <= MAX_TERM_CHARS
  }

  /** The candidates that survive trimming and the length rule, in order. */
  function Accepted(u: Unicode, candidates: seq<string>): seq<string> {
    if candidates == [] then []
    else
      var word := Trim(u, candidates[|candidates| - 1]);
      Accepted(u, candidates[..|candidates| - 1]) + (if Acceptable(word) then [word] else [])
  }

  predicate Known(u: Unicode, word: string, kept: seq<string>) {
    exists k <- kept :: u.fold(k) == u.fold(word)
  }

  /** First occurrences only, up to case. */
  function Distinct(u: Unicode, words: seq<string>): seq<string> {
    if words == [] then []
    else
      var kept, word := Distinct(u, words[..|words| - 1]), words[|words| - 1];
      if Known(u, word, kept) then kept else kept + [word]
  }

  function FirstTerms(words: seq<string>): seq<string> {
    if |words| <= MAX_TERMS then words else words[..MAX_TERMS]
  }

  /** The first 128 distinct acceptable candidates, in order of first occurrence. */
  function Parse(u: Unicode, typed: string): seq<string> {
    FirstTerms(Distinct(u, Accepted(u, Split(typed, IsSeparator()))))
  }

  lemma {:induction false} DistinctGrows(u: Unicode, a: seq<string>, b: seq<string>)
    ensures Distinct(u, a) <= Distinct(u, a + b)
  {
    if b == [] {
      assert a + b == a;
    } else {
      DistinctGrows(u, a, b[..|b| - 1]);
      assert (a + b)[..|a + b| - 1] == a + b[..|b| - 1];
    }
  }

  lemma {:induction false} AcceptedSplits(u: Unicode, a: seq<string>, b: seq<string>)
    ensures Accepted(u, a + b) == Accepted(u, a) + Accepted(u, b)
  {
    if b == [] {
      assert a + b == a;
    } else {
      AcceptedSplits(u, a, b[..|b| - 1]);
      assert (a + b)[..|a + b| - 1] == a + b[..|b| - 1];
    }
  }

  lemma AcceptedNext(u: Unicode, candidates: seq<string>, i: nat)
    requires i < |candidates|
    ensures var word := Trim(u, candidates[i]);
      Accepted(u, candidates[..i + 1]) ==
        if Acceptable(word) then Accepted(u, candidates[..i]) + [word] else Accepted(u, candidates[..i])
  {
    assert candidates[..i + 1][..i] == candidates[..i];
    assert Accepted(u, candidates[..i]) + [] == Accepted(u, candidates[..i]);
  }

  /** Once the list is full, the candidates still to come change nothing. */
  lemma FullList(u: Unicode, candidates: seq<string>, n: nat)
    requires n <= |candidates| && |Distinct(u, Accepted(u, candidates[..n]))| == MAX_TERMS
    ensures FirstTerms(Distinct(u, Accepted(u, candidates))) == Distinct(u, Accepted(u, candidates[..n]))
  {
    AcceptedSplits(u, candidates[..n], candidates[n..]);
    DistinctGrows(u, Accepted(u, candidates[..n]), Accepted(u, candidates[n..]));
    assert candidates[..n] + candidates[n..] == candidates;
  }

  method ParseVocabulary(u: Unicode, typed: string) returns (words: seq<string>)
    ensures words == Parse(u, typed)
  {
    var candidates := Split(typed, IsSeparator());
    words := [];
    for i := 0 to |candidates|
      invariant words == Distinct(u, Accepted(u, candidates[..i])) && |words| < MAX_TERMS
    {
      ghost var accepted := Accepted(u, candidates[..i]);
      AcceptedNext(u, candidates, i);
      var word := Trim(u, candidates[i]);
      if word == "" || |word| > MAX_TERM_CHARS {
        continue;
      }
      assert (accepted + [word])[..|accepted|] == accepted;
      if Known(u, word, words) {
        continue;
      }
      words := words + [word];
      if |words| == MAX_TERMS {
        FullList(u, candidates, i + 1);
        return;
      }
    }
    assert candidates[..|candidates|] == candidates;
  }

  // ---- the normal form ----

  predicate Trimmed(u: Unicode, s: string) {
    s != "" ==> !u.isSpace(s[0]) && !u.isSpace(s[|s| - 1])
  }

  predicate NormalWord(u: Unicode, word: string) {
    Acceptable(word) && Trimmed(u, word) && Free(word, IsSeparator())
  }

  /** No word folds to what an earlier one does. */
  predicate FoldDistinct(u: Unicode, words: seq<string>) {
    words != [] ==>
      FoldDistinct(u, words[..|words| - 1]) && !Known(u, words[|words| - 1], words[..|words| - 1])
  }

  predicate Normal(u: Unicode, words: seq<string>) {
    && |words| <= MAX_TERMS
    && (forall w <- words :: NormalWord(u, w))
    && FoldDistinct(u, words)
  }

  lemma {:induction false} TrimStartTrims(u: Unicode, s: string)
    ensures var t := TrimStart(u, s);
      (t != "" ==> !u.isSpace(t[0])) && (Free(s, IsSeparator()) ==> Free(t, IsSeparator()))
  {
    if s != "" && u.isSpace(s[0]) {
      assert Free(s, IsSeparator()) ==> Free(s[1..], IsSeparator());
      TrimStartTrims(u, s[1..]);
    }
  }

  lemma {:induction false} TrimEndTrims(u: Unicode, s: string)
    ensures var t := TrimEnd(u, s);
      && t <= s && (t != "" ==> !u.isSpace(t[|t| - 1]))
      && (Free(s, IsSeparator()) ==> Free(t, IsSeparator()))
  {
    if s != "" && u.isSpace(s[|s| - 1]) {
      TrimEndTrims(u, s[..|s| - 1]);
    }
  }

  lemma TrimTrims(u: Unicode, s: string)
    ensures Trimmed(u, Trim(u, s))
    ensures Free(s, IsSeparator()) ==> Free(Trim(u, s), IsSeparator())
    ensures Trimmed(u, s) ==> Trim(u, s) == s
  {
    TrimStartTrims(u, s);
    TrimEndTrims(u, TrimStart(u, s));
  }

  lemma {:induction false} AcceptedAreNormal(u: Unicode, candidates: seq<string>)
    requires forall c <- candidates :: Free(c, IsSeparator())
    ensures forall w <- Accepted(u, candidates) :: NormalWord(u, w)
  {
    if candidates != [] {
      AcceptedAreNormal(u, candidates[..|candidates| - 1]);
      TrimTrims(u, candidates[|candidates| - 1]);
    }
  }

  lemma {:induction false} DistinctIsDistinct(u: Unicode, words: seq<string>)
    ensures FoldDistinct(u, Distinct(u, words))
    ensures forall w <- Distinct(u, words) :: w in words
  {
    if words != [] {
      var init, word := words[..|words| - 1], words[|words| - 1];
      DistinctIsDistinct(u, init);
      var kept := Distinct(u, init);
      assert (kept + [word])[..|kept|] == kept;
    }
  }

  lemma {:induction false} DistinctKnowsAll(u: Unicode, words: seq<string>, w: string)
    requires w in words
    ensures Known(u, w, Distinct(u, words))
  {
    var init, word := words[..|words| - 1], words[|words| - 1];
    var kept, all := Distinct(u, init), Distinct(u, words);
    if w in init {
      DistinctKnowsAll(u, init, w);
      var k :| k in kept && u.fold(k) == u.fold(w);
      assert k in all;
    } else {
      assert words == init + [word] && w == word;
      if !Known(u, word, kept) { assert all == kept + [word] && word in all; }
    }
  }

  lemma {:induction false} PrefixIsDistinct(u: Unicode, words: seq<string>, n: nat)
    requires FoldDistinct(u, words) && n <= |words|
    ensures FoldDistinct(u, words[..n])
  {
    if n < |words| {
      PrefixIsDistinct(u, words[..|words| - 1], n);
      assert words[..|words| - 1][..n] == words[..n];
    } else {
      assert words[..n] == words;
    }
  }

  /** Whatever is typed, the parse is in normal form. */
  lemma ParseIsNormal(u: Unicode, typed: string)
    ensures Normal(u, Parse(u, typed))
  {
    var parts := Split(typed, IsSeparator());
    PartsAreFree(typed, IsSeparator());
    AcceptedAreNormal(u, parts);
    DistinctIsDistinct(u, Accepted(u, parts));
    var all := Distinct(u, Accepted(u, parts));
    PrefixIsDistinct(u, all, |FirstTerms(all)|);
  }

  /** No acceptable word is lost but to a case-variant kept before it, unless the list is full. */
  lemma NothingElseIsLost(u: Unicode, typed: string, word: string)
    requires word in Accepted(u, Split(typed, IsSeparator()))
    ensures |Parse(u, typed)| == MAX_TERMS || Known(u, word, Parse(u, typed))
  {
    DistinctKnowsAll(u, Accepted(u, Split(typed, IsSeparator())), word);
  }

  // ---- writing ----

  function Join(words: seq<string>): string {
    if words == [] then ""
    else if |words| == 1 then words[0]
    else Join(words[..|words| - 1]) + ", " + words[|words| - 1]
  }

  /** What splitting a joined list gives: every word but the first behind a space. */
  function Spaced(words: seq<string>): seq<string> {
    seq(|words|, i requires 0 <= i < |words| => if i == 0 then words[0] else " " + words[i])
  }

  lemma {:induction false} SplitOfJoin(words: seq<string>)
    requires words != [] && forall w <- words :: Free(w, IsSeparator())
    ensures Split(Join(words), IsSeparator()) == Spaced(words)
  {
    if |words| == 1 {
      SplitFree(words[0], IsSeparator());
    } else {
      var init, last := words[..|words| - 1], words[|words| - 1];
      SplitOfJoin(init);
      assert last in words;
      SplitFree(" " + last, IsSeparator());
      SplitAt(Join(init), ',', " " + last, IsSeparator());
      JoinLast(words);
      SpacedLast(words);
    }
  }

  lemma JoinLast(words: seq<string>)
    requires |words| > 1
    ensures Join(words) == Join(words[..|words| - 1]) + [','] + (" " + words[|words| - 1])
  {
    CommaSpace(Join(words[..|words| - 1]), words[|words| - 1]);
  }

  lemma CommaSpace(a: string, b: string)
    ensures a + ", " + b == a + [','] + (" " + b)
  {
  }

  lemma SpacedLast(words: seq<string>)
    requires |words| > 1
    ensures Spaced(words) == Spaced(words[..|words| - 1]) + [" " + words[|words| - 1]]
  {
  }

  lemma AcceptedSpaced(u: Unicode, words: seq<string>)
    requires u.isSpace(' ') && forall w <- words :: NormalWord(u, w)
    ensures Accepted(u, Spaced(words)) == words
  {
    for n := 0 to |words|
      invariant Accepted(u, Spaced(words)[..n]) == words[..n]
    {
      assert words[n] in words;
      TrimsBack(u, words, n);
      NextAccepted(u, Spaced(words), words, n);
    }
    assert Spaced(words)[..|words|] == Spaced(words) && words[..|words|] == words;
  }

  lemma TrimsBack(u: Unicode, words: seq<string>, n: nat)
    requires u.isSpace(' ') && n < |words| && Trimmed(u, words[n])
    ensures Trim(u, Spaced(words)[n]) == words[n]
  {
    TrimSpaced(u, words[n]);
  }

  lemma NextAccepted(u: Unicode, candidates: seq<string>, words: seq<string>, n: nat)
    requires n < |candidates| && n < |words|
    requires Trim(u, candidates[n]) == words[n] && Acceptable(words[n])
    requires Accepted(u, candidates[..n]) == words[..n]
    ensures Accepted(u, candidates[..n + 1]) == words[..n + 1]
  {
    AcceptedNext(u, candidates, n);
    assert words[..n + 1] == words[..n] + [words[n]];
  }

  lemma TrimSpaced(u: Unicode, word: string)
    requires u.isSpace(' ') && Trimmed(u, word)
    ensures Trim(u, word) == word && Trim(u, " " + word) == word
  {
    TrimTrims(u, word);
    assert (" " + word)[1..] == word;
  }

  lemma {:induction false} DistinctOfDistinct(u: Unicode, words: seq<string>)
    requires FoldDistinct(u, words)
    ensures Distinct(u, words) == words
  {
    if words != [] {
      DistinctOfDistinct(u, words[..|words| - 1]);
    }
  }

  /** Parsing a written list returns it exactly when it is in normal form. */
  lemma ParseUndoesJoin(u: Unicode, words: seq<string>)
    requires u.isSpace(' ')
    ensures Parse(u, Join(words)) == words <==> Normal(u, words)
  {
    if Normal(u, words) {
      if words == [] {
        SplitFree("", IsSeparator());
        assert [""][..0] == [];
        assert Accepted(u, [""]) == [];
      } else {
        SplitOfJoin(words);
        AcceptedSpaced(u, words);
        DistinctOfDistinct(u, words);
      }
    } else {
      ParseIsNormal(u, Join(words));
    }
  }

  /** So what setup seeds is what the application will read, for anything typed. */
  lemma SeedRoundTrip(u: Unicode, typed: string)
    requires u.isSpace(' ')
    ensures Parse(u, Join(Parse(u, typed))) == Parse(u, typed)
  {
    ParseIsNormal(u, typed);
    ParseUndoesJoin(u, Parse(u, typed));
  }

  /** What the words box starts with. */
  function OfferFrom(existing: seq<string>, defaults: string): string {
    if existing == [] then defaults else Join(existing)
  }

  /** Offering the words a profile has gives the same words back exactly when they are in
      normal form. */
  lemma OfferKeepsWords(u: Unicode, existing: seq<string>, defaults: string)
    requires u.isSpace(' ') && existing != []
    ensures Parse(u, OfferFrom(existing, defaults)) == existing <==> Normal(u, existing)
  {
    ParseUndoesJoin(u, existing);
  }

  /** One word holding a comma is offered back as two. */
  lemma OfferCanChangeWords(u: Unicode, defaults: string)
    requires u.isSpace(' ')
    ensures Parse(u, OfferFrom(["A,B"], defaults)) != ["A,B"]
  {
    OfferKeepsWords(u, ["A,B"], defaults);
    assert "A,B"[1] == ',';
    assert !NormalWord(u, ["A,B"][0]);
  }

  // ---- the rules, written out ----

  /** A list is in normal form exactly if it has at most 128 words, each of 1 to 64 characters
      with no white space at either end and no comma or line break in it, and no two the same
      up to case. */
  lemma NormalExactly(u: Unicode, words: seq<string>)
    ensures Normal(u, words) <==>
      && |words| <= 128
      && (forall w <- words ::
            1 <= |w| <= 64 && !u.isSpace(w[0]) && !u.isSpace(w[|w| - 1]) && ',' !in w && '\n' !in w && '\r' !in w)
      && (forall i, j :: 0 <= i < j < |words| ==> u.fold(words[i]) != u.fold(words[j]))
  {
    FoldDistinctExactly(u, words);
  }

  lemma {:induction false} FoldDistinctExactly(u: Unicode, words: seq<string>)
    ensures FoldDistinct(u, words) <==>
      forall i, j :: 0 <= i < j < |words| ==> u.fold(words[i]) != u.fold(words[j])
  {
    if words != [] {
      var init := words[..|words| - 1];
      FoldDistinctExactly(u, init);
      assert forall k <- init :: exists i :: 0 <= i < |init| && words[i] == k;
      assert forall i :: 0 <= i < |init| ==> words[i] in init;
    }
  }

  /** Trimming takes white space off both ends and nothing else. */
  lemma TrimExactly(u: Unicode, s: string) returns (before: string, after: string)
    ensures s == before + Trim(u, s) + after && Trimmed(u, Trim(u, s))
    ensures forall c <- before + after :: u.isSpace(c)
  {
    var rest;
    before, rest := TrimStartExactly(u, s);
    after := TrimEndExactly(u, rest);
    TrimTrims(u, s);
  }

  lemma {:induction false} TrimStartExactly(u: Unicode, s: string) returns (before: string, rest: string)
    ensures rest == TrimStart(u, s) && s == before + rest && forall c <- before :: u.isSpace(c)
  {
    if s != "" && u.isSpace(s[0]) {
      before, rest := TrimStartExactly(u, s[1..]);
      before := [s[0]] + before;
    } else {
      before, rest := "", s;
    }
  }

  lemma {:induction false} TrimEndExactly(u: Unicode, s: string) returns (after: string)
    ensures s == TrimEnd(u, s) + after && forall c <- after :: u.isSpace(c)
  {
    if s != "" && u.isSpace(s[|s| - 1]) {
      after := TrimEndExactly(u, s[..|s| - 1]);
      after := after + [s[|s| - 1]];
    } else {
      after := "";
    }
  }

  /** The words that fold to what no word before them does, in order. */
  function FirstByFold(u: Unicode, words: seq<string>): seq<string> {
    if words == [] then []
    else
      var n := |words| - 1;
      FirstByFold(u, words[..n]) +
      if exists i :: 0 <= i < n && u.fold(words[i]) == u.fold(words[n]) then [] else [words[n]]
  }

  /** Duplicates are dropped against everything typed before, not only against what was kept. */
  lemma {:induction false} DistinctExactly(u: Unicode, words: seq<string>)
    ensures Distinct(u, words) == FirstByFold(u, words)
  {
    if words != [] {
      var n := |words| - 1;
      var init := words[..n];
      DistinctExactly(u, init);
      DistinctIsDistinct(u, init);
      if i :| 0 <= i < n && u.fold(words[i]) == u.fold(words[n]) {
        assert init[i] in init;
        DistinctKnowsAll(u, init, init[i]);
      }
      if Known(u, words[n], Distinct(u, init)) {
        var k :| k in Distinct(u, init) && u.fold(k) == u.fold(words[n]);
        assert k in init;
      }
    }
  }
}
