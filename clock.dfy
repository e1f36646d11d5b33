/** `msToStr` (Radium.py:20-25, repeated at src/Radium2.py:25-30): a track length in
    milliseconds shown as "MM:SS", or "HH:MM:SS" from one hour on. */
module Clock {
  import opened Strings

  predicate IsDigit(c: char) {
    '0' <= c <= '9'
  }

  predicate AllDigits(s: string) {
    forall k :: 0 <= k < |s| ==> IsDigit(s[k])
  }

  function DigitChar(d: nat): (c: char)
    requires d < 10
    ensures IsDigit(c)
  {
    ('0' as int + d) as char
  }

  /** `str(n)` for a natural number. */
  function Decimal(n: nat): (s: string)
    ensures |s| >= 1 && AllDigits(s)
    ensures n < 10 ==> |s| == 1
    ensures 10 <= n < 100 ==> |s| == 2
  {
    if n < 10 then [DigitChar(n)] else Decimal(n / 10) + [DigitChar(n % 10)]
  }

  /** `f"{n:02d}"`: at least two digits, zero-filled. */
  function Pad2(n: nat): (s: string)
    ensures |s| >= 2 && AllDigits(s)
    ensures n < 100 ==> |s| == 2
  {
    if n < 10 then "0" + Decimal(n) else Decimal(n)
  }

  /** `msToStr(ms)`. Python's `//` and `%` by a positive divisor round toward minus
      infinity and leave a non-negative remainder, which is what `/` and `%` do here. */
  function MsToStr(ms: int): (r: string)
    ensures ms / 1000 < 3600 ==> |r| == 5 && r[2] == ':'
    ensures ms / 1000 >= 3600 ==> |r| >= 8 && r[|r| - 6] == ':' && r[|r| - 3] == ':'
  {
    var t := ms / 1000;
    if t >= 3600 then Pad2(t / 3600) + ":" + Pad2((t / 60) % 60) + ":" + Pad2(t % 60)
    else Pad2((t / 60) % 60) + ":" + Pad2(t % 60)
  }

  /** Reading a string of digits as a number. */
  function ParseDecimal(s: string): nat
    requires AllDigits(s)
  {
    if s == [] then 0 else ParseDecimal(s[..|s| - 1]) * 10 + (s[|s| - 1] as int - '0' as int)
  }

  lemma {:induction false} DecimalReadsBack(n: nat)
    ensures ParseDecimal(Decimal(n)) == n
  {
    if n >= 10 {
      DecimalReadsBack(n / 10);
      var s := Decimal(n);
      assert s[..|s| - 1] == Decimal(n / 10);
    }
  }

  lemma Pad2ReadsBack(n: nat)
    ensures ParseDecimal(Pad2(n)) == n
  {
    DecimalReadsBack(n);
    if n < 10 {
      var s := Pad2(n);
      assert s[..|s| - 1] == "0";
      assert ParseDecimal("0") == 0 by { assert "0"[..0] == []; }
    }
  }

  lemma SplitAfter(a: string, b: string, sep: char)
    requires sep !in a
    ensures Split(a + [sep] + b, sep) == [a] + Split(b, sep)
  {
    var s := a + [sep] + b;
    assert s[..|a|] == a && s[|a|] == sep && s[|a| + 1..] == b;
    var i := IndexOf(s, sep);
    assert sep !in s[..i];
    assert i == |a|;
  }

  lemma DigitsHaveNoColon(s: string)
    requires AllDigits(s)
    ensures ':' !in s
  {
    forall k | 0 <= k < |s|
      ensures s[k] != ':'
    {
    }
  }

  lemma HourSplit(t: int)
    ensures t % 3600 == ((t / 60) % 60) * 60 + t % 60
    ensures t == (t / 3600) * 3600 + t % 3600
  {
    var q := t / 60;
    assert t == q * 60 + t % 60;
    assert q == (q / 60) * 60 + q % 60;
    assert t / 3600 == q / 60;
  }

  lemma ThreeFields(h: string, m: string, s: string)
    requires AllDigits(h) && AllDigits(m) && AllDigits(s)
    ensures Split(h + ":" + m + ":" + s, ':') == [h, m, s]
  {
    var tail := m + [':'] + s;
    assert h + ":" + m + ":" + s == h + [':'] + tail;
    assert Split(tail, ':') == [m, s] by {
      DigitsHaveNoColon(m);
      DigitsHaveNoColon(s);
      SplitAfter(m, s, ':');
    }
    DigitsHaveNoColon(h);
    SplitAfter(h, tail, ':');
  }

  /** Below one hour: "MM:SS", two two-digit fields, each below 60, that read back as
      the whole seconds `ms // 1000` modulo one hour (a negative length wraps). */
  lemma ShortClock(ms: int)
    requires ms / 1000 < 3600
    ensures var f := Split(MsToStr(ms), ':');
      |f| == 2 && AllDigits(f[0]) && AllDigits(f[1]) && |f[0]| == 2 && |f[1]| == 2
      && ParseDecimal(f[0]) < 60 && ParseDecimal(f[1]) < 60
      && ParseDecimal(f[0]) * 60 + ParseDecimal(f[1]) == (ms / 1000) % 3600
  {
    var t := ms / 1000;
    var mv, sv := (t / 60) % 60, t % 60;
    HourSplit(t);
    var m, s := Pad2(mv), Pad2(sv);
    Pad2ReadsBack(mv);
    Pad2ReadsBack(sv);
    DigitsHaveNoColon(m);
    assert Split(s, ':') == [s] by { DigitsHaveNoColon(s); }
    SplitAfter(m, s, ':');
    assert MsToStr(ms) == m + [':'] + s;
  }

  /** From one hour on: "HH:MM:SS", the minutes and seconds two digits each and below
      60, reading back in base 60 as the whole seconds `ms // 1000`. */
  lemma LongClock(ms: int)
    requires ms / 1000 >= 3600
    ensures var f := Split(MsToStr(ms), ':');
      |f| == 3 && AllDigits(f[0]) && AllDigits(f[1]) && AllDigits(f[2])
      && |f[0]| >= 2 && |f[1]| == 2 && |f[2]| == 2
      && ParseDecimal(f[1]) < 60 && ParseDecimal(f[2]) < 60
      && ParseDecimal(f[0]) * 3600 + ParseDecimal(f[1]) * 60 + ParseDecimal(f[2]) == ms / 1000
  {
    var t := ms / 1000;
    var hv, mv, sv := t / 3600, (t / 60) % 60, t % 60;
    HourSplit(t);
    assert t == hv * 3600 + mv * 60 + sv;
    var h, m, s := Pad2(hv), Pad2(mv), Pad2(sv);
    Pad2ReadsBack(hv);
    Pad2ReadsBack(mv);
    Pad2ReadsBack(sv);
    ThreeFields(h, m, s);
    assert MsToStr(ms) == h + ":" + m + ":" + s;
  }

  /** A length of 3 min 25.9 s shows as "03:25"; 1 h 1 min 1 s as "01:01:01". */
  lemma ClockExamples()
    ensures MsToStr(205900) == "03:25"
    ensures MsToStr(3661000) == "01:01:01"
  {
    assert Pad2(3) == "03" by { assert Decimal(3) == "3"; }
    assert Pad2(25) == "25" by { assert Decimal(2) == "2" && Decimal(5) == "5"; }
    assert 205900 / 1000 == 205 && 205 / 60 == 3 && 3 % 60 == 3 && 205 % 60 == 25;
    assert MsToStr(205900) == Pad2(3) + ":" + Pad2(25);
    assert Pad2(1) == "01" by { assert Decimal(1) == "1"; }
    assert 3661000 / 1000 == 3661 && 3661 / 3600 == 1 && 3661 / 60 == 61 && 61 % 60 == 1 && 3661 % 60 == 1;
    assert MsToStr(3661000) == Pad2(1) + ":" + Pad2(1) + ":" + Pad2(1);
  }
}
