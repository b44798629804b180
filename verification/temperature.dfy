/** Turning the stored `suhu` value into an integer Celsius temperature, and
    the icon the card view shows for it. */
module Temperature {
  import opened Strings
  import opened Records
  import opened Seqs

  predicate IsDigit(c: char)
  {
    '0' <= c <= '9'
  }

  predicate AllDigits(s: string)
  {
    forall i :: 0 <= i < |s| ==> IsDigit(s[i])
  }

  /** The value of a string of ASCII decimal digits, most significant first. */
  function DigitsValue(d: string): nat
    requires AllDigits(d)
  {
    if d == [] then 0 else DigitsValue(d[..|d| - 1]) * 10 + (d[|d| - 1] as int - '0' as int)
  }

  /** A token without its leading sign, if it has one. */
  function Unsigned(tok: string): (d: string)
    ensures |d| <= |tok|
  {
    if |tok| > 0 && (tok[0] == '+' || tok[0] == '-') then tok[1..] else tok
  }

  /** CPython's default limit on the digits of a decimal string given to
      `int()` (`sys.get_int_max_str_digits()`, since 3.11 and the 3.10.7,
      3.9.14 and 3.8.14 releases); leading zeros count towards it. */
  const MaxStrDigits: nat := 4300

  /** The integer literals `int()` accepts in this model: an optional ASCII
      sign followed by one to `MaxStrDigits` ASCII digits. */
  predicate IsIntLiteral(tok: string)
  {
    var d := Unsigned(tok);
    d != [] && |d| <= MaxStrDigits && AllDigits(d)
  }

  /** Python's `int(tok)` for a token that holds no whitespace; `None`
      stands for the `ValueError` it raises. */
  function ParseInt(tok: string): (r: Option<int>)
    ensures r.Some? <==> IsIntLiteral(tok)
    ensures r.Some? && tok[0] == '-' ==> r.value <= 0
    ensures r.Some? && tok[0] != '-' ==> r.value >= 0
  {
    var d := Unsigned(tok);
    if d == [] || |d| > MaxStrDigits || !AllDigits(d) then None
    else
      var v: int := DigitsValue(d);
      if tok[0] == '-' then Some(-v) else Some(v)
  }

  function DigitChar(n: nat): (c: char)
    requires n < 10
    ensures IsDigit(c) && c as int - '0' as int == n
  {
    ('0' as int + n) as char
  }

  /** The decimal numeral of `n`, as Python's `str(n)` writes it. */
  function NatNumeral(n: nat): (s: string)
    ensures s != [] && AllDigits(s)
  {
    if n < 10 then [DigitChar(n)] else NatNumeral(n / 10) + [DigitChar(n % 10)]
  }

  /** The decimal numeral of any integer, with a leading minus when negative. */
  function Numeral(n: int): (s: string)
    ensures s != [] && NoSpace(s)
  {
    if n < 0 then "-" + NatNumeral(-n) else NatNumeral(n)
  }

  lemma {:induction false} DigitsValueOfNatNumeral(n: nat)
    ensures DigitsValue(NatNumeral(n)) == n
  {
    var s := NatNumeral(n);
    if n >= 10 {
      DigitsValueOfNatNumeral(n / 10);
      assert s[..|s| - 1] == NatNumeral(n / 10);
    }
  }

  function Magnitude(n: int): nat
  {
    if n < 0 then -n else n
  }

  function Pow10(k: nat): (p: nat)
    ensures p >= 1
  {
    if k == 0 then 1 else 10 * Pow10(k - 1)
  }

  /** A numeral has at most `k` digits exactly when the number is below
      10 to the `k`. */
  lemma {:induction false} NatNumeralLength(n: nat, k: nat)
    requires 1 <= k
    ensures |NatNumeral(n)| <= k <==> n < Pow10(k)
  {
    if k == 1 {
      assert Pow10(1) == 10;
      if n >= 10 {
        assert |NatNumeral(n)| == |NatNumeral(n / 10)| + 1;
      }
    } else {
      assert Pow10(k) == 10 * Pow10(k - 1);
      if n >= 10 {
        NatNumeralLength(n / 10, k - 1);
        assert |NatNumeral(n)| == |NatNumeral(n / 10)| + 1;
        assert n / 10 < Pow10(k - 1) <==> n < 10 * Pow10(k - 1);
      } else {
        assert Pow10(k - 1) >= 1;
      }
    }
  }

  /** `int(str(n)) == n` for every integer whose numeral is within the digit
      limit; a longer numeral makes `int()` raise. */
  lemma ParseIntOfNumeral(n: int)
    ensures ParseInt(Numeral(n)) == if |NatNumeral(Magnitude(n))| <= MaxStrDigits then Some(n) else None
  {
    if n < 0 {
      var d := NatNumeral(-n);
      assert Numeral(n) == "-" + d;
      assert Unsigned(Numeral(n)) == d;
      DigitsValueOfNatNumeral(-n);
    } else {
      var d := NatNumeral(n);
      assert Numeral(n) == d;
      assert IsDigit(d[0]);
      assert Unsigned(d) == d;
      DigitsValueOfNatNumeral(n);
    }
  }

  /** `z` ASCII zeros, the padding `int()` accepts before a numeral. */
  function Zeros(z: nat): (s: string)
    ensures |s| == z && AllDigits(s)
  {
    if z == 0 then [] else "0" + Zeros(z - 1)
  }

  lemma {:induction false} DigitsValueOfZeros(z: nat)
    ensures DigitsValue(Zeros(z)) == 0
  {
    if z > 0 {
      DigitsValueOfZeros(z - 1);
      assert Zeros(z)[..z - 1] == Zeros(z - 1) by {
        ZerosSnoc(z - 1);
      }
    }
  }

  lemma {:induction false} ZerosSnoc(z: nat)
    ensures Zeros(z + 1) == Zeros(z) + "0"
  {
    if z > 0 {
      ZerosSnoc(z - 1);
    }
  }

  /** Leading zeros do not change the value of a digit string. */
  lemma {:induction false} DigitsValueLeadingZeros(z: nat, d: string)
    requires AllDigits(d)
    ensures AllDigits(Zeros(z) + d)
    ensures DigitsValue(Zeros(z) + d) == DigitsValue(d)
  {
    var s := Zeros(z) + d;
    assert AllDigits(s) by {
      forall i | 0 <= i < |s|
        ensures IsDigit(s[i])
      {
        if i < z {
          assert s[i] == Zeros(z)[i];
        } else {
          assert s[i] == d[i - z];
        }
      }
    }
    if d == [] {
      assert s == Zeros(z);
      DigitsValueOfZeros(z);
    } else {
      var init := d[..|d| - 1];
      assert AllDigits(init) by {
        forall i | 0 <= i < |init|
          ensures IsDigit(init[i])
        {
          assert init[i] == d[i];
        }
      }
      DigitsValueLeadingZeros(z, init);
      assert s[..|s| - 1] == Zeros(z) + init;
      assert s[|s| - 1] == d[|d| - 1];
    }
  }

  /** `int()` on an optional sign followed by ASCII digits. */
  lemma ParseIntSigned(sign: string, d: string, tok: string)
    requires sign == "" || sign == "+" || sign == "-"
    requires d != [] && AllDigits(d)
    requires tok == sign + d
    ensures ParseInt(tok) == if |d| <= MaxStrDigits then Some(if sign == "-" then -(DigitsValue(d) as int) else DigitsValue(d)) else None
  {
    if sign == "" {
      assert tok == d;
      assert IsDigit(d[0]);
    } else {
      assert tok[1..] == d;
    }
  }

  /** `int()` reads an optional sign, leading zeros and a numeral as the
      signed value of the numeral ("+030" is 30), as long as the zeros and
      the numeral together stay within the digit limit. */
  lemma ParseIntLiteral(sign: string, z: nat, n: nat)
    requires sign == "" || sign == "+" || sign == "-"
    ensures ParseInt(sign + Zeros(z) + NatNumeral(n))
            == if z + |NatNumeral(n)| <= MaxStrDigits then Some(if sign == "-" then -(n as int) else n) else None
  {
    PaddedNumeral(sign, z, n);
    ParseIntSigned(sign, Zeros(z) + NatNumeral(n), sign + Zeros(z) + NatNumeral(n));
  }

  lemma PaddedNumeral(sign: string, z: nat, n: nat)
    ensures var d := Zeros(z) + NatNumeral(n);
            && d != [] && AllDigits(d) && DigitsValue(d) == n
            && sign + Zeros(z) + NatNumeral(n) == sign + d
  {
    DigitsValueLeadingZeros(z, NatNumeral(n));
    DigitsValueOfNatNumeral(n);
    AppendAssoc(sign, Zeros(z), NatNumeral(n));
  }

  /** A decimal such as "30.5" is not an integer literal, so `int()` rejects it. */
  lemma ParseIntRejectsDecimalPoint(tok: string, i: nat)
    requires i < |tok| && tok[i] == '.'
    ensures ParseInt(tok) == None
  {
    if |tok| > 0 && (tok[0] == '+' || tok[0] == '-') {
      assert Unsigned(tok)[i - 1] == '.';
    } else {
      assert Unsigned(tok)[i] == '.';
    }
  }

  /** The temperature of one stored value: `int(suhu.split()[0])`, with 0
      whenever that raises. An absent field defaults to the string "0"; a
      `None` or a number has no `split` and so also gives 0. */
  function ParseSuhu(v: RawSuhu): (t: int)
    ensures !v.SuhuText? ==> t == 0
    ensures v.SuhuText? && AllSpace(v.text) ==> t == 0
  {
    match v
    case SuhuAbsent => ZeroReadsAsZero(); ParseSuhuText("0")
    case SuhuNull => 0
    case SuhuNumber(_) => 0
    case SuhuText(s) => ParseSuhuText(s)
  }

  function ParseSuhuText(s: string): int
  {
    match FirstWord(s)
    case None => 0
    case Some(w) =>
      match ParseInt(w)
      case Some(n) => n
      case None => 0
  }

  /** `s.split()[0]`, or `None` where `split()` gives no words and the
      indexing raises. */
  function FirstWord(s: string): (r: Option<string>)
    ensures r.None? <==> AllSpace(s)
    ensures r.Some? ==> r.value != [] && NoSpace(r.value)
  {
    var k := LeadingSpaces(s);
    if k == |s| then None
    else
      var t := s[k..];
      var n := WordLength(t);
      assert n > 0 by {
        assert t[0] == s[k];
      }
      assert NoSpace(t[..n]) by {
        forall i | 0 <= i < n
          ensures !IsSpace(t[..n][i])
        {
          assert t[..n][i] == t[i];
        }
      }
      Some(t[..n])
  }

  /** `FirstWord` is the head of `split()`. */
  lemma FirstWordOfWords(s: string)
    ensures FirstWord(s) == if Words(s) == [] then None else Some(Words(s)[0])
  {
  }

  /** The temperature is decided by the first word alone: with any leading
      whitespace and anything after the next separator, the string reads as
      its first token does on its own. */
  lemma {:induction false} ParseSuhuFirstToken(pre: string, tok: string, post: string)
    requires AllSpace(pre)
    requires tok != [] && NoSpace(tok)
    requires post == [] || IsSpace(post[0])
    ensures ParseSuhuText(pre + tok + post) == if IsIntLiteral(tok) then ParseInt(tok).value else 0
  {
    FirstWordAfterSpaces(pre, tok, post);
    FirstWordOfWords(pre + tok + post);
  }

  /** An integer numeral as the first token gives its own value ("30 C" reads
      as 30), or 0 when it has more digits than `int()` accepts. */
  lemma {:induction false} ParseSuhuReadsFirstToken(pre: string, n: int, post: string)
    requires AllSpace(pre)
    requires post == [] || IsSpace(post[0])
    ensures ParseSuhu(SuhuText(pre + Numeral(n) + post)) == if |NatNumeral(Magnitude(n))| <= MaxStrDigits then n else 0
  {
    ParseIntOfNumeral(n);
    ParseSuhuFirstToken(pre, Numeral(n), post);
  }

  /** When the first token is not an integer literal the result is 0, and the
      rest of the string is never consulted. */
  lemma {:induction false} ParseSuhuRejectsFirstToken(pre: string, tok: string, post: string)
    requires AllSpace(pre)
    requires tok != [] && NoSpace(tok) && !IsIntLiteral(tok)
    requires post == [] || IsSpace(post[0])
    ensures ParseSuhu(SuhuText(pre + tok + post)) == 0
  {
    ParseSuhuFirstToken(pre, tok, post);
  }

  /** A signed, zero-padded integer as the first token gives its signed
      value ("+30 C" and "030" both read as 30), or 0 when its digits,
      zeros included, pass the limit. */
  lemma {:induction false} ParseSuhuReadsLiteral(pre: string, sign: string, z: nat, n: nat, post: string)
    requires AllSpace(pre)
    requires sign == "" || sign == "+" || sign == "-"
    requires post == [] || IsSpace(post[0])
    ensures ParseSuhu(SuhuText(pre + (sign + Zeros(z) + NatNumeral(n)) + post))
            == if z + |NatNumeral(n)| <= MaxStrDigits then (if sign == "-" then -(n as int) else n) else 0
  {
    var tok := sign + Zeros(z) + NatNumeral(n);
    ParseIntLiteral(sign, z, n);
    assert NoSpace(tok) by {
      forall i | 0 <= i < |tok|
        ensures !IsSpace(tok[i])
      {
        DigitOrSignNotSpace(tok[i]);
      }
    }
    ParseSuhuFirstToken(pre, tok, post);
  }

  lemma DigitOrSignNotSpace(c: char)
    requires IsDigit(c) || c == '+' || c == '-'
    ensures !IsSpace(c)
  {
  }

  /** A plus sign is read: "+30 C" is thirty degrees. */
  lemma ParseSuhuPlusSign()
    ensures ParseSuhu(SuhuText("+30 C")) == 30
  {
    assert NatNumeral(30) == "30";
    assert "+30 C" == "" + ("+" + Zeros(0) + NatNumeral(30)) + " C";
    ParseSuhuReadsLiteral("", "+", 0, 30, " C");
  }

  /** Leading zeros are read: "030" is thirty degrees. */
  lemma ParseSuhuLeadingZero()
    ensures ParseSuhu(SuhuText("030")) == 30
  {
    assert NatNumeral(30) == "30";
    assert "030" == "" + ("" + Zeros(1) + NatNumeral(30)) + "";
    ParseSuhuReadsLiteral("", "", 1, 30, "");
  }

  lemma {:induction false} FirstWordAfterSpaces(pre: string, tok: string, post: string)
    requires AllSpace(pre)
    requires tok != [] && NoSpace(tok)
    requires post == [] || IsSpace(post[0])
    ensures Words(pre + tok + post) == [tok] + Words(post)
  {
    assert pre + tok + post == pre + (tok + post);
    WordsAfterSpaces(pre, tok + post);
    WordsLeading(tok, post);
  }

  /** The default "0" of a missing field reads as 0. */
  lemma ZeroReadsAsZero()
    ensures ParseSuhuText("0") == 0
  {
    assert Numeral(0) == "0";
    assert "" + "0" + "" == "0";
    ParseIntOfNumeral(0);
    ParseSuhuFirstToken("", "0", "");
  }

  /** "30.5 C" reads as 0, not 30: the decimal point makes `int()` fail. */
  lemma {:induction false} ParseSuhuDecimalIsZero()
    ensures ParseSuhu(SuhuText("30.5 C")) == 0
  {
    ParseIntRejectsDecimalPoint("30.5", 2);
    assert "30.5 C" == "" + "30.5" + " C";
    ParseSuhuRejectsFirstToken("", "30.5", " C");
  }

  /** The in-place loop over the fetched documents, as a pure map: the same
      documents in the same order, each with its temperature parsed and
      every other field untouched. */
  function Normalize(raw: seq<RawRecord>): (rs: seq<Record>)
    ensures |rs| == |raw|
    ensures forall i :: 0 <= i < |raw| ==> rs[i].suhu == ParseSuhu(raw[i].suhu)
    ensures forall i, c :: 0 <= i < |raw| ==> Get(rs[i], c) == Get(raw[i], c)
  {
    seq(|raw|, i requires 0 <= i < |raw| => WithSuhu(raw[i], ParseSuhu(raw[i].suhu)))
  }

  lemma NormalizeAppend(a: seq<RawRecord>, b: seq<RawRecord>)
    ensures Normalize(a + b) == Normalize(a) + Normalize(b)
  {
    var l := Normalize(a + b);
    var r := Normalize(a) + Normalize(b);
    forall i | 0 <= i < |l|
      ensures l[i] == r[i]
    {
      if i < |a| {
        assert (a + b)[i] == a[i];
      } else {
        assert (a + b)[i] == b[i - |a|];
      }
    }
  }

  /** The card view's weather icon. */
  datatype Icon = Sun | SunBehindCloud | Rain
  {
    /** The glyph the card prints. */
    function Glyph(): string
    {
      match this
      case Sun => "\U{2600}"
      case SunBehindCloud => "\U{26C5}"
      case Rain => "\U{1F327}"
    }

    /** Warmth rank: rain below cloud below sun. */
    function Rank(): nat
    {
      match this
      case Rain => 0
      case SunBehindCloud => 1
      case Sun => 2
    }
  }

  /** The icon for a temperature: sun from 32 degrees up, sun behind a cloud
      from 24 up to 31, rain below 24. */
  function IconFor(suhu: int): (icon: Icon)
    ensures icon == Sun <==> suhu >= 32
    ensures icon == SunBehindCloud <==> 24 <= suhu < 32
    ensures icon == Rain <==> suhu < 24
  {
    if suhu >= 32 then Sun else if suhu >= 24 then SunBehindCloud else Rain
  }

  /** A warmer reading never gets a colder icon. */
  lemma IconMonotone(a: int, b: int)
    requires a <= b
    ensures IconFor(a).Rank() <= IconFor(b).Rank()
  {
  }

  /** The three icons print as three different glyphs. */
  lemma GlyphsDistinct(x: Icon, y: Icon)
    requires x != y
    ensures x.Glyph() != y.Glyph()
  {
  }
}
