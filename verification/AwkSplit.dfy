/** awk's field splitting: blanks, one character, each character, or a regular expression. */
module AwkSplit {
  import opened Options

  /** What the program is given from elsewhere: the length of a character in the locale, the leftmost
      match of a separator (its string, whether newlines separate too, the text, and whether the text
      does not start a line), and the text of a number under a format. */
  datatype Oracle = Oracle(
    charLen: string -> nat,
    find: (string, bool, string, bool) -> Option<(nat, nat)>,
    numText: (real, string) -> string)

  ghost predicate Sound(o: Oracle)
  {
    && (forall s: string :: s != [] ==> 1 <= o.charLen(s) <= |s|)
    && (forall fs: string, p: bool, s: string, b: bool ::
          o.find(fs, p, s, b).Some? ==> o.find(fs, p, s, b).value.0 <= o.find(fs, p, s, b).value.1 <= |s|)
  }

  // ---- blanks ----

  predicate Blank(c: char)
  {
    c == ' ' || c == '\t' || c == '\n'
  }

  function SkipBlanks(s: string, i: nat): (j: nat)
    requires i <= |s|
    ensures i <= j <= |s| && (j < |s| ==> !Blank(s[j]))
    decreases |s| - i
  {
    if i < |s| && Blank(s[i]) then SkipBlanks(s, i + 1) else i
  }

  function SkipWord(s: string, i: nat): (j: nat)
    requires i <= |s|
    ensures i <= j <= |s| && (j < |s| ==> Blank(s[j])) && (i < |s| && !Blank(s[i]) ==> i < j)
    decreases |s| - i
  {
    if i < |s| && !Blank(s[i]) then SkipWord(s, i + 1) else i
  }

  function Words(s: string, i: nat): seq<string>
    requires i <= |s|
    decreases |s| - i
  {
    var p := SkipBlanks(s, i);
    if p == |s| then [] else [s[p..SkipWord(s, p)]] + Words(s, SkipWord(s, p))
  }

  lemma {:induction false} Append<T>(a: seq<T>, x: T, b: seq<T>)
    ensures a + ([x] + b) == a + [x] + b
  {
  }

  lemma {:induction false} AppendNothing<T>(a: seq<T>)
    ensures a + [] == a
  {
  }

  method SplitBlanks(s: string) returns (f: seq<string>)
    ensures f == Words(s, 0)
  {
    f := [];
    var i := 0;
    while true
      invariant i <= |s| && f + Words(s, i) == Words(s, 0)
      decreases |s| - i
    {
      ghost var i0 := i;
      while i < |s| && Blank(s[i])
        invariant i0 <= i <= |s| && SkipBlanks(s, i) == SkipBlanks(s, i0)
      {
        i := i + 1;
      }
      if i >= |s| {
        AppendNothing(f);
        break;
      }
      var p := i;
      while i < |s| && !Blank(s[i])
        invariant p <= i <= |s| && SkipWord(s, i) == SkipWord(s, p)
      {
        i := i + 1;
      }
      Append(f, s[p..i], Words(s, i));
      f := f + [s[p..i]];
    }
  }

  // ---- characters ----

  function Characters(o: Oracle, s: string, i: nat): seq<string>
    requires Sound(o) && i <= |s|
    decreases |s| - i
  {
    if i == |s| then [] else
      var n := o.charLen(s[i..]);
      [s[i..i + n]] + Characters(o, s, i + n)
  }

  lemma {:induction false} CharactersAt(o: Oracle, s: string, i: nat)
    requires Sound(o) && i <= |s|
    ensures i == |s| ==> Characters(o, s, i) == []
    ensures i < |s| ==> var n := o.charLen(s[i..]);
      1 <= n <= |s| - i && Characters(o, s, i) == [s[i..i + n]] + Characters(o, s, i + n)
  {
  }

  method SplitCharacters(o: Oracle, s: string) returns (f: seq<string>)
    requires Sound(o)
    ensures f == Characters(o, s, 0)
  {
    hide Characters;
    f := [];
    var i := 0;
    CharactersAt(o, s, i);
    assert f + Characters(o, s, 0) == Characters(o, s, 0);
    while i < |s|
      invariant i <= |s| && f + Characters(o, s, i) == Characters(o, s, 0)
    {
      var n := o.charLen(s[i..]);
      CharactersAt(o, s, i);
      Append(f, s[i..i + n], Characters(o, s, i + n));
      f := f + [s[i..i + n]];
      i := i + n;
    }
    CharactersAt(o, s, i);
    AppendNothing(f);
  }

  // ---- one character ----

  predicate Separates(c: char, fs: char, paragraph: bool)
  {
    c == fs || (paragraph && c == '\n')
  }

  /** The pieces of s from p on, when there is no separator before i. */
  function Pieces(s: string, fs: char, paragraph: bool, p: nat, i: nat): seq<string>
    requires p <= i <= |s|
    decreases |s| - i
  {
    if i == |s| then [s[p..]]
    else if Separates(s[i], fs, paragraph) then [s[p..i]] + Pieces(s, fs, paragraph, i + 1, i + 1)
    else Pieces(s, fs, paragraph, p, i + 1)
  }

  method SplitAt(s: string, fs: char, paragraph: bool) returns (f: seq<string>)
    ensures f == Pieces(s, fs, paragraph, 0, 0)
  {
    f := [];
    var p := 0;
    for i := 0 to |s|
      invariant p <= i && f + Pieces(s, fs, paragraph, p, i) == Pieces(s, fs, paragraph, 0, 0)
    {
      if Separates(s[i], fs, paragraph) {
        Append(f, s[p..i], Pieces(s, fs, paragraph, i + 1, i + 1));
        f := f + [s[p..i]];
        p := i + 1;
      }
    }
    f := f + [s[p..]];
  }

  // ---- a regular expression ----

  /** The next match from q on that is not empty. */
  function NextMatch(o: Oracle, fs: string, paragraph: bool, s: string, q: nat): (m: Option<(nat, nat)>)
    requires Sound(o)
    ensures m.Some? ==> q <= m.value.0 < m.value.1 <= |s|
    decreases |s| + 1 - q
  {
    if q > |s| then None else
      match o.find(fs, paragraph, s[q..], q > 0)
      case None => None
      case Some(at) =>
        if at.1 > at.0 then Some((q + at.0, q + at.1))
        else if q + at.0 >= |s| then None
        else NextMatch(o, fs, paragraph, s, q + at.0 + o.charLen(s[q + at.0..]))
  }

  function Separated(o: Oracle, fs: string, paragraph: bool, s: string, p: nat): seq<string>
    requires Sound(o) && p <= |s|
    decreases |s| - p
  {
    match NextMatch(o, fs, paragraph, s, p)
    case None => [s[p..]]
    case Some(m) => [s[p..m.0]] + Separated(o, fs, paragraph, s, m.1)
  }

  lemma {:induction false} FoundInside(o: Oracle, fs: string, paragraph: bool, s: string, b: bool)
    requires Sound(o)
    ensures o.find(fs, paragraph, s, b).Some? ==> o.find(fs, paragraph, s, b).value.0 <= o.find(fs, paragraph, s, b).value.1 <= |s|
  {
  }

  lemma {:induction false} LengthInside(o: Oracle, s: string)
    requires Sound(o) && s != []
    ensures 1 <= o.charLen(s) <= |s|
  {
  }

  lemma {:induction false} NoMatchBeyond(o: Oracle, fs: string, paragraph: bool, s: string, q: nat)
    requires Sound(o) && q > |s|
    ensures NextMatch(o, fs, paragraph, s, q) == None
  {
  }

  /** One try of the search. */
  lemma {:induction false} NextMatchIs(o: Oracle, fs: string, paragraph: bool, s: string, q: nat, at: Option<(nat, nat)>)
    requires Sound(o) && q <= |s| && at == o.find(fs, paragraph, s[q..], q > 0)
    ensures at == None ==> NextMatch(o, fs, paragraph, s, q) == None
    ensures at.Some? && at.value.1 > at.value.0 ==> NextMatch(o, fs, paragraph, s, q) == Some((q + at.value.0, q + at.value.1))
    ensures at.Some? && at.value.1 <= at.value.0 && q + at.value.0 >= |s| ==> NextMatch(o, fs, paragraph, s, q) == None
    ensures at.Some? && at.value.1 <= at.value.0 && q + at.value.0 < |s| ==>
      NextMatch(o, fs, paragraph, s, q) == NextMatch(o, fs, paragraph, s, q + at.value.0 + o.charLen(s[q + at.value.0..]))
  {
    hide Sound;
    FoundInside(o, fs, paragraph, s[q..], q > 0);
  }

  method FindSeparator(o: Oracle, fs: string, paragraph: bool, s: string, p: nat) returns (m: Option<(nat, nat)>)
    requires Sound(o) && p <= |s|
    ensures m == NextMatch(o, fs, paragraph, s, p)
  {
    hide Sound, NextMatch;
    var q := p;
    m := None;
    while q <= |s|
      invariant p <= q && m == None && NextMatch(o, fs, paragraph, s, q) == NextMatch(o, fs, paragraph, s, p)
      decreases |s| + 1 - q
    {
      var at := o.find(fs, paragraph, s[q..], q > 0);
      NextMatchIs(o, fs, paragraph, s, q, at);
      if at == None {
        return None;
      }
      var ms, me := q + at.value.0, q + at.value.1;
      if me > ms {
        return Some((ms, me));
      }
      if ms >= |s| {
        return None;
      }
      LengthInside(o, s[ms..]);
      q := ms + o.charLen(s[ms..]);
    }
    NoMatchBeyond(o, fs, paragraph, s, q);
  }

  method SplitExpression(o: Oracle, fs: string, paragraph: bool, s: string) returns (f: seq<string>)
    requires Sound(o)
    ensures f == Separated(o, fs, paragraph, s, 0)
  {
    f := [];
    var p := 0;
    while true
      invariant p <= |s| && f + Separated(o, fs, paragraph, s, p) == Separated(o, fs, paragraph, s, 0)
      decreases |s| - p
    {
      var m := FindSeparator(o, fs, paragraph, s, p);
      if m == None {
        f := f + [s[p..]];
        break;
      }
      Append(f, s[p..m.value.0], Separated(o, fs, paragraph, s, m.value.1));
      f := f + [s[p..m.value.0]];
      p := m.value.1;
    }
  }

  // ---- splitting ----

  /** The fields of s. */
  function Fields(o: Oracle, s: string, fs: string, paragraph: bool): seq<string>
    requires Sound(o)
  {
    if s == [] then []
    else if fs == [' '] then Words(s, 0)
    else if fs == [] then Characters(o, s, 0)
    else if |fs| == 1 then Pieces(s, fs[0], paragraph, 0, 0)
    else Separated(o, fs, paragraph, s, 0)
  }

  /** split_string, with a separator that is a string. */
  method Split(o: Oracle, s: string, fs: string, paragraph: bool) returns (f: seq<string>)
    requires Sound(o)
    ensures f == Fields(o, s, fs, paragraph)
  {
    if |s| == 0 {
      return [];
    }
    if |fs| == 1 && fs[0] == ' ' {
      assert fs == [' '];
      f := SplitBlanks(s);
    } else if |fs| == 0 {
      f := SplitCharacters(o, s);
    } else if |fs| == 1 {
      f := SplitAt(s, fs[0], paragraph);
    } else {
      f := SplitExpression(o, fs, paragraph, s);
    }
  }

  // ---- what the fields are ----

  function Join(f: seq<string>, ofs: string): string
  {
    if f == [] then [] else if |f| == 1 then f[0] else f[0] + ofs + Join(f[1..], ofs)
  }

  lemma {:induction false} JoinMore(x: string, f: seq<string>, ofs: string)
    requires f != []
    ensures Join([x] + f, ofs) == x + ofs + Join(f, ofs)
  {
    assert ([x] + f)[1..] == f;
  }

  lemma {:induction false} PiecesSome(s: string, fs: char, paragraph: bool, p: nat, i: nat)
    requires p <= i <= |s|
    ensures Pieces(s, fs, paragraph, p, i) != []
    decreases |s| - i
  {
    if i < |s| && !Separates(s[i], fs, paragraph) {
      PiecesSome(s, fs, paragraph, p, i + 1);
    }
  }

  /** Put together again with the separator, the pieces are the text. */
  lemma {:induction false} PiecesJoin(s: string, fs: char, p: nat, i: nat)
    requires p <= i <= |s|
    ensures Join(Pieces(s, fs, false, p, i), [fs]) == s[p..]
    decreases |s| - i
  {
    if i < |s| {
      if s[i] == fs {
        PiecesJoin(s, fs, i + 1, i + 1);
        PiecesSome(s, fs, false, i + 1, i + 1);
        JoinMore(s[p..i], Pieces(s, fs, false, i + 1, i + 1), [fs]);
        assert s[p..] == s[p..i] + [fs] + s[i + 1..];
      } else {
        PiecesJoin(s, fs, p, i + 1);
      }
    }
  }

  /** No piece contains the separator. */
  lemma {:induction false} PiecesClean(s: string, fs: char, paragraph: bool, p: nat, i: nat, k: nat)
    requires p <= i <= |s| && (forall j :: p <= j < i ==> !Separates(s[j], fs, paragraph))
    requires k < |Pieces(s, fs, paragraph, p, i)|
    ensures fs !in Pieces(s, fs, paragraph, p, i)[k]
    decreases |s| - i
  {
    if i < |s| {
      if Separates(s[i], fs, paragraph) {
        if k > 0 {
          PiecesClean(s, fs, paragraph, i + 1, i + 1, k - 1);
        }
      } else {
        PiecesClean(s, fs, paragraph, p, i + 1, k);
      }
    }
  }

  /** A text without its blanks. */
  function Solid(s: string): string
  {
    if s == [] then [] else (if Blank(s[0]) then [] else [s[0]]) + Solid(s[1..])
  }

  function Concat(f: seq<string>): string
  {
    if f == [] then [] else f[0] + Concat(f[1..])
  }

  lemma {:induction false} SolidSkip(s: string, i: nat)
    requires i <= |s|
    ensures Solid(s[i..]) == Solid(s[SkipBlanks(s, i)..])
    decreases |s| - i
  {
    if i < |s| && Blank(s[i]) {
      SolidSkip(s, i + 1);
      assert s[i..][1..] == s[i + 1..];
    }
  }

  lemma {:induction false} SolidWord(s: string, i: nat)
    requires i <= |s|
    ensures Solid(s[i..]) == s[i..SkipWord(s, i)] + Solid(s[SkipWord(s, i)..])
    ensures forall j :: i <= j < SkipWord(s, i) ==> !Blank(s[j])
    decreases |s| - i
  {
    hide Blank, Solid;
    if i < |s| && !Blank(s[i]) {
      SolidWord(s, i + 1);
      SolidOne(s, i);
      SliceOne(s, i, SkipWord(s, i));
    } else {
      assert s[i..i] == [];
      AppendToNothing(Solid(s[i..]));
    }
  }

  lemma {:induction false} AppendToNothing<T>(a: seq<T>)
    ensures [] + a == a
  {
  }

  lemma {:induction false} SolidOne(s: string, i: nat)
    requires i < |s| && !Blank(s[i])
    ensures Solid(s[i..]) == [s[i]] + Solid(s[i + 1..])
  {
    assert s[i..][1..] == s[i + 1..];
  }

  lemma {:induction false} SliceOne(s: string, i: nat, j: nat)
    requires i < j <= |s|
    ensures forall t: string :: s[i..j] + t == [s[i]] + (s[i + 1..j] + t)
  {
    forall t: string
      ensures s[i..j] + t == [s[i]] + (s[i + 1..j] + t)
    {
      assert s[i..j] == [s[i]] + s[i + 1..j];
      assert [s[i]] + s[i + 1..j] + t == [s[i]] + (s[i + 1..j] + t);
    }
  }

  /** Words have no blanks and are not empty, and together they are all that is not blank. */
  lemma {:induction false} WordsAre(s: string, i: nat)
    requires i <= |s|
    ensures Concat(Words(s, i)) == Solid(s[i..])
    ensures forall w :: w in Words(s, i) ==> w != [] && forall c :: c in w ==> !Blank(c)
    decreases |s| - i
  {
    var p := SkipBlanks(s, i);
    SolidSkip(s, i);
    if p < |s| {
      var e := SkipWord(s, p);
      SolidWord(s, p);
      WordsAre(s, e);
      assert Words(s, i)[1..] == Words(s, e);
      assert forall c :: c in s[p..e] ==> !Blank(c);
    } else {
      assert s[p..] == [];
    }
  }

  /** Fields and what was between them, alternating. */
  function Between(f: seq<string>, seps: seq<string>): string
    requires |f| == |seps| + 1
  {
    if seps == [] then f[0] else f[0] + seps[0] + Between(f[1..], seps[1..])
  }

  /** With the separators that were matched, none of them empty, the fields are the text. */
  lemma {:induction false} SeparatedJoin(o: Oracle, fs: string, paragraph: bool, s: string, p: nat) returns (seps: seq<string>)
    requires Sound(o) && p <= |s|
    ensures |Separated(o, fs, paragraph, s, p)| == |seps| + 1
    ensures Between(Separated(o, fs, paragraph, s, p), seps) == s[p..] && [] !in seps
    decreases |s| - p
  {
    hide NextMatch, Sound;
    var f := Separated(o, fs, paragraph, s, p);
    var next := NextMatch(o, fs, paragraph, s, p);
    if next == None {
      seps := [];
    } else {
      var m := next.value;
      var rest := SeparatedJoin(o, fs, paragraph, s, m.1);
      seps := [s[m.0..m.1]] + rest;
      JoinOne(f, Separated(o, fs, paragraph, s, m.1), s[p..m.0], s[m.0..m.1], seps, rest);
      JoinSlices(s, p, m.0, m.1);
      NotEmptyMore(s[m.0..m.1], rest);
    }
  }

  lemma {:induction false} JoinOne(f: seq<string>, g: seq<string>, x: string, sep: string, seps: seq<string>, rest: seq<string>)
    requires f == [x] + g && seps == [sep] + rest && |g| == |rest| + 1
    ensures |f| == |seps| + 1 && Between(f, seps) == x + sep + Between(g, rest)
  {
    assert f[1..] == g && seps[1..] == rest;
  }

  lemma {:induction false} JoinSlices(s: string, p: nat, q: nat, r: nat)
    requires p <= q <= r <= |s|
    ensures s[p..q] + s[q..r] + s[r..] == s[p..]
  {
  }

  lemma {:induction false} NotEmptyMore(x: string, rest: seq<string>)
    requires x != [] && [] !in rest
    ensures [] !in [x] + rest
  {
  }

  // ---- when newlines separate too ----

  lemma {:induction false} PiecesPlain(s: string, fs: char, p: nat, i: nat)
    requires p <= i <= |s| && (fs == '\n' || forall j :: i <= j < |s| ==> s[j] != '\n')
    ensures Pieces(s, fs, true, p, i) == Pieces(s, fs, false, p, i)
    decreases |s| - i
  {
    if i < |s| {
      PiecesPlain(s, fs, i + 1, i + 1);
      PiecesPlain(s, fs, p, i + 1);
    }
  }

  function Separators(s: string, fs: char, paragraph: bool, i: nat): nat
    requires i <= |s|
    decreases |s| - i
  {
    if i == |s| then 0 else (if Separates(s[i], fs, paragraph) then 1 else 0) + Separators(s, fs, paragraph, i + 1)
  }

  lemma {:induction false} PiecesCount(s: string, fs: char, paragraph: bool, p: nat, i: nat)
    requires p <= i <= |s|
    ensures |Pieces(s, fs, paragraph, p, i)| == 1 + Separators(s, fs, paragraph, i)
    decreases |s| - i
  {
    if i < |s| {
      PiecesCount(s, fs, paragraph, i + 1, i + 1);
      PiecesCount(s, fs, paragraph, p, i + 1);
    }
  }

  /** Each newline that would not separate by itself makes one piece more. */
  lemma {:induction false} MoreSeparators(s: string, fs: char, i: nat)
    requires i <= |s| && fs != '\n'
    ensures Separators(s, fs, true, i) >= Separators(s, fs, false, i)
    ensures '\n' in s[i..] ==> Separators(s, fs, true, i) > Separators(s, fs, false, i)
    decreases |s| - i
  {
    if i < |s| {
      MoreSeparators(s, fs, i + 1);
      assert s[i..] == [s[i]] + s[i + 1..];
    }
  }

  /** Whether it matters to the fields if newlines separate too. */
  predicate NewlinesMatter(o: Oracle, s: string, fs: string)
    requires Sound(o)
  {
    if s == [] || fs == [' '] || fs == [] then false
    else if |fs| == 1 then fs[0] != '\n' && '\n' in s
    else Separated(o, fs, true, s, 0) != Separated(o, fs, false, s, 0)
  }

  lemma {:induction false} NewlinesMatterIff(o: Oracle, s: string, fs: string)
    requires Sound(o)
    ensures Fields(o, s, fs, true) != Fields(o, s, fs, false) <==> NewlinesMatter(o, s, fs)
  {
    hide Sound, Words, Characters, Separated;
    if s != [] && |fs| == 1 && fs != [' '] {
      assert fs != [];
      PiecesCount(s, fs[0], true, 0, 0);
      PiecesCount(s, fs[0], false, 0, 0);
      assert s[0..] == s;
      if fs[0] != '\n' {
        MoreSeparators(s, fs[0], 0);
      }
      if fs[0] == '\n' || '\n' !in s {
        PiecesPlain(s, fs[0], 0, 0);
      }
    }
  }
}
