/** What awk's splitting gives for texts of which the fields are known: each kind of separator splits
    just there, and nowhere else. */
module SplitLaws {
  import opened Options
  import opened AwkSplit

  predicate AllBlank(g: string)
  {
    forall c :: c in g ==> c in " \t\n"
  }

  predicate NoBlank(w: string)
  {
    w != [] && forall c :: c in w ==> c !in " \t\n"
  }

  // ---- blanks ----

  /** Words with blanks before, between and after them. */
  function Woven(words: seq<string>, gaps: seq<string>): string
    requires |gaps| == |words| + 1
  {
    if words == [] then gaps[0] else gaps[0] + words[0] + Woven(words[1..], gaps[1..])
  }

  /** Between words there is some blank. */
  ghost predicate Gaps(words: seq<string>, gaps: seq<string>)
  {
    && |gaps| == |words| + 1 && (forall i :: 0 <= i < |words| ==> NoBlank(words[i]))
    && (forall i :: 0 <= i < |gaps| ==> AllBlank(gaps[i])) && (forall i :: 1 <= i < |gaps| - 1 ==> gaps[i] != [])
  }

  lemma {:induction false} BlankIs(c: char)
    ensures Blank(c) <==> c in " \t\n"
  {
  }

  lemma {:induction false} SkipsBlanks(s: string, i: nat, j: nat)
    requires i <= j <= |s| && AllBlank(s[i..j]) && (j < |s| ==> s[j] !in " \t\n")
    ensures SkipBlanks(s, i) == j
    decreases j - i
  {
    if i < j {
      BlankIs(s[i]);
      assert s[i..j] == [s[i]] + s[i + 1..j];
      SkipsBlanks(s, i + 1, j);
    } else if j < |s| {
      BlankIs(s[j]);
    }
  }

  lemma {:induction false} SkipsWord(s: string, i: nat, j: nat)
    requires i <= j <= |s| && (forall c :: c in s[i..j] ==> c !in " \t\n") && (j < |s| ==> s[j] in " \t\n")
    ensures SkipWord(s, i) == j
    decreases j - i
  {
    if i < j {
      BlankIs(s[i]);
      assert s[i..j] == [s[i]] + s[i + 1..j];
      SkipsWord(s, i + 1, j);
    } else if j < |s| {
      BlankIs(s[j]);
    }
  }

  /** From i on, the text is words and gaps. */
  lemma {:induction false} WordsFound(s: string, i: nat, words: seq<string>, gaps: seq<string>)
    requires i <= |s| && Gaps(words, gaps) && s[i..] == Woven(words, gaps)
    ensures Words(s, i) == words
    decreases |words|
  {
    var p := i + |gaps[0]|;
    if words == [] {
      assert s[i..p] == gaps[0];
      SkipsBlanks(s, i, p);
    } else {
      var w := words[0];
      var q := p + |w|;
      var rest := Woven(words[1..], gaps[1..]);
      assert s[i..] == gaps[0] + w + rest;
      assert s[i..p] == gaps[0] && s[p..q] == w && s[q..] == rest;
      assert s[p] == w[0];
      SkipsBlanks(s, i, p);
      AfterWord(words[1..], gaps[1..]);
      assert q < |s| ==> s[q] == rest[0];
      SkipsWord(s, p, q);
      WordsFound(s, q, words[1..], gaps[1..]);
    }
  }

  lemma {:induction false} AfterWord(words: seq<string>, gaps: seq<string>)
    requires |gaps| == |words| + 1 && AllBlank(gaps[0]) && (words != [] ==> gaps[0] != [])
    ensures Woven(words, gaps) != [] ==> Woven(words, gaps)[0] in " \t\n"
  {
    if gaps[0] != [] {
      assert Woven(words, gaps)[0] == gaps[0][0];
    }
  }

  /** With blanks as separators the fields are just the words, whatever blanks there are. */
  lemma {:induction false} FieldsAreWords(o: Oracle, words: seq<string>, gaps: seq<string>, paragraph: bool)
    requires Sound(o) && Gaps(words, gaps)
    ensures Fields(o, Woven(words, gaps), [' '], paragraph) == words
  {
    hide Sound, Words;
    var s := Woven(words, gaps);
    if s == [] {
      assert words == [];
    } else {
      assert s[0..] == s;
      WordsFound(s, 0, words, gaps);
    }
  }

  // ---- each character ----

  /** With an empty separator the fields are the characters, each as long as the locale says. */
  lemma {:induction false} FieldsAreCharacters(o: Oracle, cs: seq<string>, paragraph: bool)
    requires Sound(o) && forall k :: 0 <= k < |cs| ==> |cs[k]| > 0 && |cs[k]| == o.charLen(Concat(cs[k..]))
    ensures Fields(o, Concat(cs), [], paragraph) == cs
  {
    hide Sound, Characters;
    if cs == [] {
    } else {
      assert Concat(cs) == cs[0] + Concat(cs[1..]);
      assert Concat(cs)[0..] == Concat(cs);
      CharactersFound(o, Concat(cs), 0, cs);
    }
  }

  lemma {:induction false} CharactersFound(o: Oracle, s: string, i: nat, cs: seq<string>)
    requires Sound(o) && i <= |s| && s[i..] == Concat(cs)
    requires forall k :: 0 <= k < |cs| ==> |cs[k]| > 0 && |cs[k]| == o.charLen(Concat(cs[k..]))
    ensures Characters(o, s, i) == cs
    decreases |cs|
  {
    hide Sound, Characters, Concat;
    CharactersAt(o, s, i);
    ConcatIs(cs);
    if cs != [] {
      var n := |cs[0]|;
      assert cs[0..] == cs;
      assert s[i..i + n] == cs[0] && s[i + n..] == Concat(cs[1..]);
      FewerCharacters(o, cs);
      CharactersFound(o, s, i + n, cs[1..]);
      assert cs == [cs[0]] + cs[1..];
    }
  }

  lemma {:induction false} ConcatIs(cs: seq<string>)
    ensures Concat(cs) == if cs == [] then [] else cs[0] + Concat(cs[1..])
  {
  }

  lemma {:induction false} FewerCharacters(o: Oracle, cs: seq<string>)
    requires cs != [] && forall k :: 0 <= k < |cs| ==> |cs[k]| > 0 && |cs[k]| == o.charLen(Concat(cs[k..]))
    ensures forall k :: 0 <= k < |cs[1..]| ==> |cs[1..][k]| > 0 && |cs[1..][k]| == o.charLen(Concat(cs[1..][k..]))
  {
    hide Concat;
    forall k | 0 <= k < |cs[1..]|
      ensures |cs[1..][k]| > 0 && |cs[1..][k]| == o.charLen(Concat(cs[1..][k..]))
    {
      assert cs[1..][k] == cs[k + 1] && cs[1..][k..] == cs[k + 1..];
    }
  }

  // ---- one character ----

  /** A separator is the character, or a newline where these separate too. */
  ghost predicate Separators1(seps: seq<string>, c: char, paragraph: bool)
  {
    forall i :: 0 <= i < |seps| ==> seps[i] == [c] || (paragraph && seps[i] == ['\n'])
  }

  ghost predicate WithoutSeparator(f: seq<string>, c: char, paragraph: bool)
  {
    forall i :: 0 <= i < |f| ==> c !in f[i] && (paragraph ==> '\n' !in f[i])
  }

  lemma {:induction false} PieceFound(s: string, c: char, paragraph: bool, p: nat, i: nat, e: nat)
    requires p <= i <= e <= |s| && (forall k :: i <= k < e ==> s[k] != c && (paragraph ==> s[k] != '\n'))
    requires e < |s| ==> s[e] == c || (paragraph && s[e] == '\n')
    ensures Pieces(s, c, paragraph, p, i) == if e == |s| then [s[p..]] else [s[p..e]] + Pieces(s, c, paragraph, e + 1, e + 1)
    decreases e - i
  {
    if i < e {
      PieceFound(s, c, paragraph, p, i + 1, e);
    }
  }

  lemma {:induction false} PiecesFound(s: string, c: char, paragraph: bool, p: nat, f: seq<string>, seps: seq<string>)
    requires p <= |s| && |f| == |seps| + 1 && s[p..] == Between(f, seps)
    requires Separators1(seps, c, paragraph) && WithoutSeparator(f, c, paragraph)
    ensures Pieces(s, c, paragraph, p, p) == f
    decreases |f|
  {
    hide Pieces, Separators1, WithoutSeparator, Between;
    var e := p + |f[0]|;
    FirstBetween(f, seps, c, paragraph);
    if seps == [] {
      assert s[p..e] == f[0];
      InSlice(s, p, e, f[0], c, paragraph);
      PieceFound(s, c, paragraph, p, p, e);
      assert f == [f[0]];
    } else {
      var rest := Between(f[1..], seps[1..]);
      assert s[p..e] == f[0] && s[e] == seps[0][0] && s[e + 1..] == rest;
      InSlice(s, p, e, f[0], c, paragraph);
      PieceFound(s, c, paragraph, p, p, e);
      PiecesFound(s, c, paragraph, e + 1, f[1..], seps[1..]);
      assert f == [f[0]] + f[1..];
    }
  }

  lemma {:induction false} FirstBetween(f: seq<string>, seps: seq<string>, c: char, paragraph: bool)
    requires |f| == |seps| + 1 && Separators1(seps, c, paragraph) && WithoutSeparator(f, c, paragraph)
    ensures c !in f[0] && (paragraph ==> '\n' !in f[0])
    ensures seps == [] ==> Between(f, seps) == f[0]
    ensures seps != [] ==> Between(f, seps) == f[0] + seps[0] + Between(f[1..], seps[1..])
    ensures seps != [] ==> |seps[0]| == 1 && (seps[0][0] == c || (paragraph && seps[0][0] == '\n'))
    ensures seps != [] ==> Separators1(seps[1..], c, paragraph) && WithoutSeparator(f[1..], c, paragraph)
  {
  }

  lemma {:induction false} InSlice(s: string, p: nat, e: nat, x: string, c: char, paragraph: bool)
    requires p <= e <= |s| && s[p..e] == x && c !in x && (paragraph ==> '\n' !in x)
    ensures forall k :: p <= k < e ==> s[k] != c && (paragraph ==> s[k] != '\n')
  {
    forall k | p <= k < e
      ensures s[k] != c && (paragraph ==> s[k] != '\n')
    {
      assert s[k] == x[k - p];
    }
  }

  /** With one character as the separator, and newlines where they separate too, the fields are what is
      between. */
  lemma {:induction false} FieldsAreBetween(o: Oracle, f: seq<string>, seps: seq<string>, c: char, paragraph: bool)
    requires Sound(o) && |f| == |seps| + 1 && c != ' ' && Between(f, seps) != []
    requires Separators1(seps, c, paragraph) && WithoutSeparator(f, c, paragraph)
    ensures Fields(o, Between(f, seps), [c], paragraph) == f
  {
    hide Sound, Pieces;
    var s := Between(f, seps);
    assert [c] != [' '] by { assert [c][0] == c; }
    assert s[0..] == s;
    PiecesFound(s, c, paragraph, 0, f, seps);
  }

  // ---- a regular expression ----

  /** From q the matcher finds the empty text, and the search goes on behind the next character. */
  ghost predicate FindsEmpty(o: Oracle, fs: string, paragraph: bool, s: string, q: nat, next: nat)
  {
    && q <= |s|
    && match o.find(fs, paragraph, s[q..], q > 0)
       case None => false
       case Some(at) => at.0 == at.1 && q + at.0 < |s| && next == q + at.0 + o.charLen(s[q + at.0..])
  }

  /** From q the matcher finds this, which is not empty. */
  ghost predicate Finds(o: Oracle, fs: string, paragraph: bool, s: string, q: nat, m: (nat, nat))
  {
    && q <= |s| && q <= m.0 < m.1 && o.find(fs, paragraph, s[q..], q > 0) == Some((m.0 - q, m.1 - q))
  }

  /** From q there is no match, or only an empty one at the end. */
  ghost predicate FindsNone(o: Oracle, fs: string, paragraph: bool, s: string, q: nat)
  {
    || q > |s|
    || match o.find(fs, paragraph, s[q..], q > 0)
       case None => true
       case Some(at) => at.0 == at.1 && q + at.0 >= |s|
  }

  /** The places from which the matcher is tried. */
  ghost predicate Tries(o: Oracle, fs: string, paragraph: bool, s: string, qs: seq<nat>)
  {
    qs != [] && forall i :: 0 <= i < |qs| - 1 ==> FindsEmpty(o, fs, paragraph, s, qs[i], qs[i + 1])
  }

  lemma {:induction false} MatchFound(o: Oracle, fs: string, paragraph: bool, s: string, qs: seq<nat>)
    requires Sound(o) && Tries(o, fs, paragraph, s, qs)
    ensures forall m :: Finds(o, fs, paragraph, s, qs[|qs| - 1], m) ==> NextMatch(o, fs, paragraph, s, qs[0]) == Some(m)
    ensures FindsNone(o, fs, paragraph, s, qs[|qs| - 1]) ==> NextMatch(o, fs, paragraph, s, qs[0]) == None
    decreases |qs|
  {
    hide Sound, NextMatch, FindsEmpty, Finds, FindsNone;
    if |qs| > 1 {
      TryEmpty(o, fs, paragraph, s, qs[0], qs[1]);
      MatchFound(o, fs, paragraph, s, qs[1..]);
    } else {
      TryLast(o, fs, paragraph, s, qs[0]);
    }
  }

  lemma {:induction false} TryEmpty(o: Oracle, fs: string, paragraph: bool, s: string, q: nat, next: nat)
    requires Sound(o) && FindsEmpty(o, fs, paragraph, s, q, next)
    ensures NextMatch(o, fs, paragraph, s, q) == NextMatch(o, fs, paragraph, s, next)
  {
    hide Sound, NextMatch;
    NextMatchIs(o, fs, paragraph, s, q, o.find(fs, paragraph, s[q..], q > 0));
  }

  lemma {:induction false} TryLast(o: Oracle, fs: string, paragraph: bool, s: string, q: nat)
    requires Sound(o)
    ensures forall m :: Finds(o, fs, paragraph, s, q, m) ==> NextMatch(o, fs, paragraph, s, q) == Some(m)
    ensures FindsNone(o, fs, paragraph, s, q) ==> NextMatch(o, fs, paragraph, s, q) == None
  {
    hide Sound, NextMatch;
    if q > |s| {
      NoMatchBeyond(o, fs, paragraph, s, q);
    } else {
      NextMatchIs(o, fs, paragraph, s, q, o.find(fs, paragraph, s[q..], q > 0));
    }
  }

  /** Matches one after the other, each with the tries that lead to it from the end of the one before. */
  ghost predicate Matched(o: Oracle, fs: string, paragraph: bool, s: string, p: nat, ms: seq<(nat, nat)>, tries: seq<seq<nat>>)
    decreases |ms|
  {
    && |tries| == |ms| + 1 && Tries(o, fs, paragraph, s, tries[0]) && tries[0][0] == p
    && if ms == [] then FindsNone(o, fs, paragraph, s, tries[0][|tries[0]| - 1])
       else
         && Finds(o, fs, paragraph, s, tries[0][|tries[0]| - 1], ms[0]) && p <= ms[0].0 && ms[0].1 <= |s|
         && Matched(o, fs, paragraph, s, ms[0].1, ms[1..], tries[1..])
  }

  /** What is outside of the matches. */
  function Outside(s: string, p: nat, ms: seq<(nat, nat)>): seq<string>
    decreases |ms|
  {
    if ms == [] then if p <= |s| then [s[p..]] else []
    else (if p <= ms[0].0 <= |s| then [s[p..ms[0].0]] else []) + Outside(s, ms[0].1, ms[1..])
  }

  lemma {:induction false} OutsideFound(o: Oracle, fs: string, paragraph: bool, s: string, p: nat, ms: seq<(nat, nat)>, tries: seq<seq<nat>>)
    requires Sound(o) && p <= |s| && Matched(o, fs, paragraph, s, p, ms, tries)
    ensures Separated(o, fs, paragraph, s, p) == Outside(s, p, ms)
    decreases |ms|
  {
    hide Sound, NextMatch, Finds, FindsNone, Tries;
    MatchFound(o, fs, paragraph, s, tries[0]);
    FoundLies(o, fs, paragraph, s, p);
    if ms == [] {
      assert NextMatch(o, fs, paragraph, s, p) == None;
      assert Separated(o, fs, paragraph, s, p) == [s[p..]];
    } else {
      assert NextMatch(o, fs, paragraph, s, p) == Some(ms[0]);
      assert Separated(o, fs, paragraph, s, p) == [s[p..ms[0].0]] + Separated(o, fs, paragraph, s, ms[0].1);
      OutsideFound(o, fs, paragraph, s, ms[0].1, ms[1..], tries[1..]);
    }
  }

  lemma {:induction false} FoundLies(o: Oracle, fs: string, paragraph: bool, s: string, p: nat)
    requires Sound(o)
    ensures NextMatch(o, fs, paragraph, s, p).Some? ==>
      var m := NextMatch(o, fs, paragraph, s, p).value;
      p <= m.0 < m.1 <= |s|
  {
    hide Sound, NextMatch;
  }

  /** With an expression, the fields are what is outside of the matches that the matcher gives. */
  lemma {:induction false} FieldsAreOutside(o: Oracle, fs: string, paragraph: bool, s: string, ms: seq<(nat, nat)>, tries: seq<seq<nat>>)
    requires Sound(o) && s != [] && |fs| > 1 && Matched(o, fs, paragraph, s, 0, ms, tries)
    ensures Fields(o, s, fs, paragraph) == Outside(s, 0, ms)
  {
    hide Sound, Separated, Matched, Outside;
    assert fs != [' '] && fs != [];
    hide Words, Characters, Pieces;
    OutsideFound(o, fs, paragraph, s, 0, ms, tries);
  }
}
