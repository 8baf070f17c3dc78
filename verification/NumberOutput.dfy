/** num_print in base ten, through out_num: numbers are written. */
module NumberOutput {
  import opened Limbs
  import opened Magnitude
  import opened Decimal
  import opened SquareRoot
  import opened Numbers
  import opened NumberText

  /** The standard output, with the column that out_num counts. */
  class Output {
    var column: int
    const lineLength: int
    var written: string

    constructor (lineLength: int)
      ensures this.lineLength == lineLength && column == 0 && written == []
    {
      this.lineLength := lineLength;
      column := 0;
      written := [];
    }

    /** out_num: a character of a number, after a line end when the line is full. */
    method PutNumber(c: char)
      modifies this
      ensures written == old(written) + Put(old(column), lineLength, c)
      ensures column == NextColumn(old(column), lineLength)
    {
      column := column + 1;
      if lineLength > 1 && column == lineLength - 1 {
        written := written + ['\\'];
        written := written + ['\n'];
        column := 1;
      }
      written := written + [c];
    }

    /** s has been written since the output was like this. */
    ghost predicate Since(before: string, column0: int, s: string)
      reads this
    {
      written == before + Continued(column0, lineLength, s) && column == ColumnAfter(column0, lineLength, s)
    }

    lemma {:induction false} SinceStart()
      ensures Since(written, column, [])
    {
      assert written + [] == written;
    }

    method PutMore(c: char, ghost before: string, ghost column0: int, ghost s: string)
      requires Since(before, column0, s)
      modifies this
      ensures Since(before, column0, s + [c])
    {
      ContinuedSnoc(column0, lineLength, s, c);
      PutNumber(c);
      ConcatAssoc(before, Continued(column0, lineLength, s), Put(ColumnAfter(column0, lineLength, s), lineLength, c));
    }
  }

  // ---- the digits of the mantissa ----

  lemma {:induction false} DecValSnoc(s: string, c: char)
    requires AllDecimal(s) && '0' <= c <= '9'
    ensures AllDecimal(s + [c]) && DecVal(s + [c]) == DecVal(s) + Ten(|s|) * DigitOf(c)
  {
    if s == [] {
      assert s + [c] == [c] && [c][1..] == [];
    } else {
      DecValSnoc(s[1..], c);
      assert (s + [c])[1..] == s[1..] + [c];
      TenTimes(|s|, DigitOf(c));
    }
  }

  lemma {:induction false} TenTimes(n: nat, x: nat)
    requires n > 0
    ensures Ten(n) * x == 10 * (Ten(n - 1) * x)
  {
  }

  /** The digits in the buffer and what is still to be divided make the mantissa. */
  ghost predicate Dividing(s: string, rest: nat, m: nat)
  {
    AllDecimal(s) && DecVal(s) + Ten(|s|) * rest == m
  }

  lemma {:induction false} DividingNext(s: string, rest: nat, m: nat)
    requires Dividing(s, rest, m)
    ensures Dividing(s + [DigitChar(rest % 10)], rest / 10, m)
  {
    DecValSnoc(s, DigitChar(rest % 10));
    LowDigit(Ten(|s|), rest / 10, rest % 10, rest);
  }

  lemma {:induction false} LowDigit(p: nat, h: nat, d: nat, rest: nat)
    requires rest == 10 * h + d
    ensures p * rest == 10 * p * h + p * d
  {
    assert p * (10 * h + d) == p * (10 * h) + p * d;
    assert p * (10 * h) == 10 * p * h;
  }

  lemma {:induction false} NineAgain(rem: nat, high: nat, k: nat)
    requires k > 0
    ensures (rem + Ten(k) * high) % 10 == rem % 10 && (rem + Ten(k) * high) / 10 == rem / 10 + Ten(k - 1) * high
  {
    assert rem + Ten(k) * high == 10 * (rem / 10 + Ten(k - 1) * high) + rem % 10;
  }

  /** Nine digits of a limb. */
  method PutLimb(buf: array<char>, len: nat, rem: u64, ghost high: nat, ghost m: nat) returns (len': nat)
    requires len + 9 <= buf.Length && rem < BASE && Dividing(buf[..len], rem + BASE * high, m)
    modifies buf
    ensures len' == len + 9 && Dividing(buf[..len'], high, m)
  {
    hide Ten, Dividing;
    var r: u64 := rem;
    len' := len;
    TenNine();
    for i := 0 to 9
      invariant len' == len + i && r < Ten(9 - i) && Dividing(buf[..len'], r + Ten(9 - i) * high, m)
    {
      len', r := PutDigit(buf, len', r, high, 9 - i, m);
    }
    LastDigit(r, high);
  }

  method PutDigit(buf: array<char>, len: nat, r: u64, ghost high: nat, ghost k: nat, ghost m: nat) returns (len': nat, r': u64)
    requires len < buf.Length && k > 0 && r < Ten(k) && Dividing(buf[..len], r + Ten(k) * high, m)
    modifies buf
    ensures len' == len + 1 && r' < Ten(k - 1) && Dividing(buf[..len'], r' + Ten(k - 1) * high, m)
  {
    hide Dividing;
    NineAgain(r, high, k);
    DividingNext(buf[..len], r + Ten(k) * high, m);
    ghost var s := buf[..len];
    buf[len] := DigitChar(r % 10);
    assert buf[..len + 1] == s + [DigitChar(r % 10)];
    len', r' := len + 1, r / 10;
  }

  lemma {:induction false} LastDigit(r: nat, high: nat)
    requires r < Ten(0)
    ensures r + Ten(0) * high == high
  {
  }

  lemma {:induction false} FewerLimbs(d: seq<limb>, q: seq<limb>)
    requires Trimmed(d) && d != [] && Trimmed(q) && Val(q) * BASE <= Val(d)
    ensures |q| < |d|
  {
    if |q| >= |d| {
      TrimmedBound(q);
      ValBound(d);
      PowMonotonic(|d| - 1, |q| - 1);
    }
  }

  /** All the digits, least significant first, nine for each limb. */
  method PutLimbs(d: seq<limb>, buf: array<char>) returns (len: nat)
    requires Trimmed(d) && 9 * |d| <= buf.Length
    modifies buf
    ensures len <= 9 * |d| && AllDecimal(buf[..len]) && DecVal(buf[..len]) == Val(d)
  {
    var m := d;
    len := 0;
    DividingStart(buf[..0], Val(d));
    while |m| > 0
      invariant Trimmed(m) && len + 9 * |m| <= 9 * |d| && Dividing(buf[..len], Val(m), Val(d))
      decreases |m|
    {
      hide Dividing;
      var t, rem := DivideSmall(m, BASE);
      FewerLimbs(m, t);
      len := PutLimb(buf, len, rem, Val(t), Val(d));
      m := t;
    }
    DividingEnd(buf[..len], m, Val(d));
  }

  lemma {:induction false} DividingStart(s: string, m: nat)
    requires s == []
    ensures Dividing(s, m, m)
  {
  }

  lemma {:induction false} DividingEnd(s: string, d: seq<limb>, m: nat)
    requires Dividing(s, Val(d), m) && d == []
    ensures AllDecimal(s) && DecVal(s) == m
  {
  }

  lemma {:induction false} DropZero(s: string, n: nat)
    requires n < |s| && AllDecimal(s[..n + 1]) && s[n] == '0'
    ensures AllDecimal(s[..n]) && DecVal(s[..n]) == DecVal(s[..n + 1])
  {
    DecValSnoc(s[..n], s[n]);
    assert s[..n + 1] == s[..n] + [s[n]];
  }

  lemma {:induction false} AddZero(s: string)
    requires AllDecimal(s)
    ensures AllDecimal(s + ['0']) && DecVal(s + ['0']) == DecVal(s)
  {
    DecValSnoc(s, '0');
  }

  /** Needless zeros are dropped, and missing ones are put before the digits. */
  method FitScale(buf: array<char>, len: nat, sc: nat, ghost m: nat) returns (len': nat)
    requires len <= buf.Length && sc <= buf.Length && AllDecimal(buf[..len]) && DecVal(buf[..len]) == m
    modifies buf
    ensures sc <= len' <= buf.Length && buf[..len'] == DecimalDigits(m, sc)
  {
    hide DecVal, DecimalDigits;
    len' := len;
    while len' > sc && len' > 0 && buf[len' - 1] == '0'
      invariant len' <= len && AllDecimal(buf[..len']) && DecVal(buf[..len']) == m
    {
      assert buf[..][..len'] == buf[..len'] && buf[..][..len' - 1] == buf[..len' - 1];
      DropZero(buf[..], len' - 1);
      len' := len' - 1;
    }
    assert len' > sc ==> buf[..len'][len' - 1] == buf[len' - 1];
    while len' < sc
      invariant len' <= buf.Length && AllDecimal(buf[..len']) && DecVal(buf[..len']) == m
      invariant len' > sc ==> buf[..len'][len' - 1] != '0'
      decreases sc - len'
    {
      ghost var s := buf[..len'];
      buf[len'] := '0';
      AddZero(s);
      assert buf[..len' + 1] == s + ['0'];
      len' := len' + 1;
    }
    DecimalDigitsUnique(buf[..len'], m, sc);
  }

  // ---- writing ----

  lemma {:induction false} DescendNext(s: string, lo: nat, q: nat, done: string, goal: string)
    requires lo < q <= |s| && goal == done + Descend(s, lo, q)
    ensures goal == (done + [s[q - 1]]) + Descend(s, lo, q - 1)
  {
    ConcatAssoc(done, [s[q - 1]], Descend(s, lo, q - 1));
  }

  /** Characters of the buffer, from the top down. */
  method WriteDown(o: Output, buf: array<char>, lo: nat, hi: nat, ghost before: string, ghost column0: int, ghost done: string)
    requires lo <= hi <= buf.Length && o.Since(before, column0, done)
    modifies o
    ensures o.Since(before, column0, done + Descend(buf[..], lo, hi))
  {
    hide Output.Since;
    var q := hi;
    ghost var s := done;
    ghost var goal := done + Descend(buf[..], lo, hi);
    while q > lo
      invariant lo <= q <= hi && o.Since(before, column0, s) && goal == s + Descend(buf[..], lo, q)
    {
      DescendNext(buf[..], lo, q, s, goal);
      q := q - 1;
      o.PutMore(buf[q], before, column0, s);
      s := s + [buf[q]];
    }
    assert s + [] == s;
  }

  /** What a number is written as. */
  ghost function Text(a: Num): string
  {
    if a.d == [] then ['0']
    else (if a.neg then ['-'] else []) + Layout(DecimalDigits(Val(a.d), a.scale), a.scale)
  }

  /** num_print in base ten: the sign, the digits of the mantissa, and the point. */
  method Print(o: Output, a: Num)
    requires Valid(a)
    modifies o
    ensures o.Since(old(o.written), old(o.column), Text(a))
  {
    hide Output.Since, Val, DecimalDigits;
    ghost var before, column0 := o.written, o.column;
    o.SinceStart();
    if |a.d| == 0 {
      o.PutMore('0', before, column0, []);
      assert [] + ['0'] == ['0'];
      return;
    }
    ghost var sign := [];
    if a.neg {
      o.PutMore('-', before, column0, []);
      sign := ['-'];
      assert [] + ['-'] == ['-'];
    }
    var nd := SquareRoot.Digits(a.d);
    var buf := new char[9 * |a.d| + (if nd > a.scale then nd else a.scale) + 2];
    var len := PutLimbs(a.d, buf);
    len := FitScale(buf, len, a.scale, Val(a.d));
    WriteLayout(o, buf, len, a.scale, before, column0, sign);
  }

  /** The digits of the whole part, and after the point those of the fraction. */
  method WriteLayout(o: Output, buf: array<char>, len: nat, sc: nat, ghost before: string, ghost column0: int, ghost sign: string)
    requires sc <= len <= buf.Length && o.Since(before, column0, sign)
    modifies o
    ensures o.Since(before, column0, sign + Layout(buf[..len], sc))
  {
    hide Output.Since;
    ghost var s := buf[..len];
    WriteDown(o, buf, sc, len, before, column0, sign);
    DescendPrefix(buf[..], s, sc, len);
    ghost var whole := Descend(s, sc, len);
    if sc > 0 {
      o.PutMore('.', before, column0, sign + whole);
      WriteDown(o, buf, 0, sc, before, column0, sign + whole + ['.']);
      DescendPrefix(buf[..], s, 0, sc);
      JoinParts(sign, whole, ['.'], Descend(s, 0, sc));
    } else {
      assert whole + [] == whole;
    }
  }

  lemma {:induction false} JoinParts(a: string, b: string, c: string, d: string)
    ensures a + b + c + d == a + (b + (c + d))
  {
  }

  lemma {:induction false} DescendPrefix(all: string, s: string, lo: nat, hi: nat)
    requires lo <= hi <= |s| <= |all| && s == all[..|s|]
    ensures Descend(all, lo, hi) == Descend(s, lo, hi)
  {
    if lo < hi {
      DescendPrefix(all, s, lo, hi - 1);
    }
  }
}
