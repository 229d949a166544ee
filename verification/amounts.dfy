/** Money as integer cents. The portal prints a document's value with '.'
    between thousands and ',' before the cents ("4.333,97"); the program
    reads it by deleting the dots, turning the comma into a point and calling
    `float`, and prints the final total the same localised way. */
module Amounts {
  import opened Wrappers
  import opened Digits
  import opened Text

  /** `s.replace('.', '')`. */
  function DeleteDots(s: string): (r: string)
    ensures |r| <= |s|
  {
    if |s| == 0 then [] else (if s[0] == '.' then [] else [s[0]]) + DeleteDots(s[1..])
  }

  /** The two replacements the program applies to a value cell before `float`. */
  function Unlocalize(s: string): string
  {
    ReplaceChar(DeleteDots(s), ',', '.')
  }

  /** Position of the first `c` in `s`, or `|s|` when there is none. */
  function IndexOf(s: string, c: char): (k: nat)
    ensures k <= |s|
    ensures forall j :: 0 <= j < k ==> s[j] != c
    ensures k < |s| ==> s[k] == c
  {
    if |s| == 0 then 0 else if s[0] == c then 0 else 1 + IndexOf(s[1..], c)
  }

  /** Python's `float` on "<ip>.<fp>", in cents: digits on both sides, at
      least one digit overall and at most two after the point. */
  function DecimalCents(ip: string, fp: string): Option<int>
  {
    if AllDigits(ip) && AllDigits(fp) && 1 <= |ip| + |fp| && |fp| <= 2 then
      Some(Value(ip) * 100 + (if |fp| == 1 then Value(fp) * 10 else Value(fp)))
    else
      None
  }

  /** Python's `float` on an unsigned decimal, in cents: the text splits at
      its first point, if any. Anything but a decimal is a failed parse. */
  function UnsignedCents(body: string): Option<int>
  {
    var k := IndexOf(body, '.');
    if k < |body| then DecimalCents(body[..k], body[k + 1..]) else DecimalCents(body, "")
  }

  /** Python's `float(t)`, in cents, on the shapes a value cell can take once
      its separators are undone: an optional sign before an unsigned decimal. */
  function FloatCents(t: string): Option<int>
  {
    if |t| > 0 && t[0] == '-' then
      match UnsignedCents(t[1..])
      case Some(m) => Some(-m)
      case None => None
    else if |t| > 0 && t[0] == '+' then UnsignedCents(t[1..])
    else UnsignedCents(t)
  }

  /** Reads a value cell ("51,60", "4.333,97") as cents; `None` when `float`
      would reject the cleaned text. */
  function ParseAmount(text: string): Option<int>
  {
    FloatCents(Unlocalize(text))
  }

  /** The integer part of `format(x, ',')` with ',' already swapped for '.':
      groups of three digits separated by '.'. */
  function Group(n: nat): string
    decreases n
  {
    if n < 1000 then Show(n) else Group(n / 1000) + "." + Zfill(Show(n % 1000), 3)
  }

  /** `f"{x:,.2f}"` for a non-negative cent amount, separators swapped. */
  function FormatPlain(c: nat): string
  {
    Group(c / 100) + "," + Zfill(Show(c % 100), 2)
  }

  /** The summary's total after "R$ ": the localised spelling of `c` cents. */
  function FormatAmount(c: int): string
  {
    if c < 0 then "-" + FormatPlain(-c) else FormatPlain(c)
  }

  /** Digit groups as the formatter writes them: one to three leading digits
      without a superfluous zero, then groups of exactly three after '.'. */
  predicate Grouped(s: string)
    decreases |s|
  {
    if |s| <= 3 then
      1 <= |s| && AllDigits(s) && (|s| == 1 || s[0] != '0')
    else
      5 <= |s| && s[0] != '0' && s[|s| - 4] == '.' && AllDigits(s[|s| - 3..])
      && Grouped(s[..|s| - 4])
  }

  /** A non-negative amount spelled the way the formatter spells it. */
  predicate CanonicalPlain(s: string)
  {
    var k := IndexOf(s, ',');
    k + 3 == |s| && Grouped(s[..k]) && AllDigits(s[k + 1..])
  }

  /** An amount spelled the way the formatter spells it: a plain amount, or a
      '-' in front of a plain amount other than zero. */
  predicate Canonical(s: string)
  {
    if |s| > 0 && s[0] == '-' then CanonicalPlain(s[1..]) && s[1..] != "0,00"
    else CanonicalPlain(s)
  }

  // ---------------------------------------------------------------------
  // Facts about the two replacements

  lemma {:induction false} DeleteDotsConcat(a: string, b: string)
    ensures DeleteDots(a + b) == DeleteDots(a) + DeleteDots(b)
    decreases |a|
  {
    if |a| > 0 {
      var h := if a[0] == '.' then [] else [a[0]];
      assert (a + b)[0] == a[0];
      assert (a + b)[1..] == a[1..] + b;
      assert DeleteDots(a + b) == h + DeleteDots(a[1..] + b);
      assert DeleteDots(a) == h + DeleteDots(a[1..]);
      DeleteDotsConcat(a[1..], b);
    } else {
      assert a + b == b;
    }
  }

  lemma {:induction false} DeleteDotsDigits(s: string)
    requires AllDigits(s)
    ensures DeleteDots(s) == s
    decreases |s|
  {
    if |s| > 0 {
      DeleteDotsDigits(s[1..]);
      assert s == [s[0]] + s[1..];
    }
  }

  /** Every '.' of a value cell is dropped wherever it stands: the parse of a
      text with a dot inserted equals the parse of the text without it. */
  lemma {:induction false} ParseIgnoresDots(a: string, b: string)
    ensures ParseAmount(a + "." + b) == ParseAmount(a + b)
  {
    DeleteDotsConcat(a + ".", b);
    DeleteDotsConcat(a, ".");
    DeleteDotsConcat(a, b);
    assert DeleteDots(".") == [];
    assert DeleteDots(a + "." + b) == DeleteDots(a + b);
  }

  // ---------------------------------------------------------------------
  // float on a clean decimal

  lemma {:induction false} IndexOfAfterDigits(d: string, z: string)
    requires AllDigits(d)
    ensures IndexOf(d + "." + z, '.') == |d|
  {
    var t := d + "." + z;
    var k := IndexOf(t, '.');
    assert t[|d|] == '.';
    assert forall j :: 0 <= j < |d| ==> t[j] == d[j];
  }

  lemma {:induction false} UnsignedCentsDecimal(d: string, z: string)
    requires AllDigits(d) && 1 <= |d| && AllDigits(z) && |z| == 2
    ensures UnsignedCents(d + "." + z) == Some(Value(d) * 100 + Value(z))
  {
    var t := d + "." + z;
    IndexOfAfterDigits(d, z);
    assert t[..|d|] == d;
    assert t[|d| + 1..] == z;
    assert UnsignedCents(t) == DecimalCents(d, z);
  }

  /** A sign in front of an unsigned decimal negates it or leaves it alone. */
  lemma {:induction false} FloatCentsSign(t: string)
    requires 1 <= |t| && IsDigit(t[0])
    ensures FloatCents(t) == UnsignedCents(t)
    ensures FloatCents("-" + t) == match UnsignedCents(t)
                                   case Some(m) => Some(-m)
                                   case None => None
  {
    var u := "-" + t;
    assert u[0] == '-';
    assert u[1..] == t;
  }

  /** `float` on "<digits>.<two digits>", unsigned and with a '-' in front. */
  lemma {:induction false} FloatCentsDecimal(d: string, z: string)
    requires AllDigits(d) && 1 <= |d| && AllDigits(z) && |z| == 2
    ensures FloatCents(d + "." + z) == Some(Value(d) * 100 + Value(z))
    ensures FloatCents("-" + (d + "." + z)) == Some(-(Value(d) * 100 + Value(z)))
  {
    var t := d + "." + z;
    UnsignedCentsDecimal(d, z);
    assert t[0] == d[0];
    FloatCentsSign(t);
  }

  // ---------------------------------------------------------------------
  // The formatter

  lemma {:induction false} Pow10Three()
    ensures Pow10(2) == 100 && Pow10(3) == 1000
  {
    assert Pow10(1) == 10;
  }

  /** Appending a three-digit group after '.' keeps a grouped spelling well
      formed and multiplies the number it denotes by a thousand. */
  lemma {:induction false} AppendGroup(p: string, z: string)
    requires Grouped(p) && AllDigits(DeleteDots(p)) && 1 <= |DeleteDots(p)|
    requires Value(DeleteDots(p)) >= 1
    requires AllDigits(z) && |z| == 3
    ensures Grouped(p + "." + z)
    ensures AllDigits(DeleteDots(p + "." + z)) && 1 <= |DeleteDots(p + "." + z)|
    ensures Value(DeleteDots(p + "." + z)) == Value(DeleteDots(p)) * 1000 + Value(z)
  {
    if |p| == 1 {
      DeleteDotsDigits(p);
      assert Value(p) == DigitValue(p[0]);
    }
    AppendGroupShape(p, z);
    AppendGroupValue(p, z);
  }

  lemma {:induction false} AppendGroupShape(p: string, z: string)
    requires Grouped(p) && p[0] != '0' && AllDigits(z) && |z| == 3
    ensures Grouped(p + "." + z)
  {
    var s := p + "." + z;
    assert s[..|s| - 4] == p;
    assert s[|s| - 3..] == z;
    assert s[0] == p[0];
    assert s[|s| - 4] == '.';
  }

  lemma {:induction false} AppendGroupValue(p: string, z: string)
    requires AllDigits(DeleteDots(p)) && AllDigits(z) && |z| == 3
    ensures DeleteDots(p + "." + z) == DeleteDots(p) + z
    ensures Value(DeleteDots(p + "." + z)) == Value(DeleteDots(p)) * 1000 + Value(z)
  {
    Pow10Three();
    DeleteDotsConcat(p + ".", z);
    DeleteDotsConcat(p, ".");
    DeleteDotsDigits(z);
    assert DeleteDots(".") == [];
    ValueConcat(DeleteDots(p), z);
  }

  /** The grouped spelling of `n` is well formed and its digits, dots
      removed, read back as `n`. */
  lemma {:induction false} GroupSpec(n: nat)
    ensures Grouped(Group(n))
    ensures AllDigits(DeleteDots(Group(n))) && 1 <= |DeleteDots(Group(n))|
    ensures Value(DeleteDots(Group(n))) == n
    decreases n
  {
    Pow10Three();
    if n < 1000 {
      DeleteDotsDigits(Show(n));
      ShowLength(n, 3);
      ValueShow(n);
    } else {
      GroupSpec(n / 1000);
      ZfillShowWidth(n % 1000, 3);
      AppendGroup(Group(n / 1000), Zfill(Show(n % 1000), 3));
    }
  }

  /** Conversely, a well-formed grouped spelling is the formatter's output for
      the number its digits denote. */
  lemma {:induction false} GroupedSpec(s: string)
    requires Grouped(s)
    ensures AllDigits(DeleteDots(s)) && 1 <= |DeleteDots(s)|
    ensures s[0] != '0' ==> Value(DeleteDots(s)) >= 1
    ensures Group(Value(DeleteDots(s))) == s
    decreases |s|
  {
    Pow10Three();
    if |s| <= 3 {
      DeleteDotsDigits(s);
      ValueBound(s);
      assert Pow10(|s|) <= 1000;
      ShowValue(s);
      if s[0] != '0' { LeadingDigitPositive(s); }
    } else {
      var p := s[..|s| - 4];
      var g := s[|s| - 3..];
      assert s == p + "." + g;
      assert s[0] == p[0];
      GroupedSpec(p);
      AppendGroupValue(p, g);
      ValueBound(g);
      DivModThousand(Value(DeleteDots(p)), Value(g));
      ZfillShowValue(g, 3);
    }
  }

  lemma {:induction false} DeleteDotsSplit(g: string, z: string)
    requires AllDigits(z)
    ensures DeleteDots(g + "," + z) == DeleteDots(g) + "," + z
  {
    DeleteDotsConcat(g + ",", z);
    DeleteDotsConcat(g, ",");
    assert DeleteDots(",") == ",";
    DeleteDotsDigits(z);
  }

  lemma {:induction false} CommaToPointSplit(d: string, z: string)
    requires AllDigits(d) && AllDigits(z)
    ensures ReplaceChar(d + "," + z, ',', '.') == d + "." + z
  {
    ReplaceCharConcat(d + ",", z, ',', '.');
    ReplaceCharConcat(d, ",", ',', '.');
    assert ReplaceChar(",", ',', '.') == ".";
    DigitsLack(d, ',');
    DigitsLack(z, ',');
    ReplaceCharAbsent(d, ',', '.');
    ReplaceCharAbsent(z, ',', '.');
  }

  /** Undoing the separators of "<grouped>,<digits>" leaves
      "<digits>.<digits>". */
  lemma {:induction false} UnlocalizeSplit(g: string, z: string)
    requires AllDigits(DeleteDots(g)) && AllDigits(z)
    ensures Unlocalize(g + "," + z) == DeleteDots(g) + "." + z
  {
    DeleteDotsSplit(g, z);
    CommaToPointSplit(DeleteDots(g), z);
  }

  lemma {:induction false} DivModThousand(a: nat, b: nat)
    requires b < 1000
    ensures (a * 1000 + b) / 1000 == a && (a * 1000 + b) % 1000 == b
  {}

  lemma {:induction false} GroupedDigits(s: string)
    requires Grouped(s)
    ensures AllDigits(DeleteDots(s)) && 1 <= |DeleteDots(s)|
  {
    GroupedSpec(s);
  }

  lemma {:induction false} PlainUnlocalized(c: nat)
    ensures Unlocalize(FormatPlain(c))
         == DeleteDots(Group(c / 100)) + "." + Zfill(Show(c % 100), 2)
  {
    GroupSpec(c / 100);
    UnlocalizeSplit(Group(c / 100), Zfill(Show(c % 100), 2));
  }

  lemma {:induction false} UnlocalizeNegative(p: string)
    ensures Unlocalize("-" + p) == "-" + Unlocalize(p)
  {
    DeleteDotsConcat("-", p);
    assert DeleteDots("-") == "-";
    ReplaceCharConcat("-", DeleteDots(p), ',', '.');
  }

  /** Parsing what the formatter prints gives back the amount, for every
      amount, negative ones included. */
  lemma {:induction false} ParseFormat(c: int)
    ensures ParseAmount(FormatAmount(c)) == Some(c)
  {
    Pow10Three();
    var a: nat := if c < 0 then -c else c;
    var d := DeleteDots(Group(a / 100));
    var z := Zfill(Show(a % 100), 2);
    GroupSpec(a / 100);
    ZfillShowWidth(a % 100, 2);
    PlainUnlocalized(a);
    FloatCentsDecimal(d, z);
    assert Value(d) * 100 + Value(z) == a;
    var p := FormatPlain(a);
    assert Unlocalize(p) == d + "." + z;
    if c < 0 {
      UnlocalizeNegative(p);
      assert FormatAmount(c) == "-" + p;
    } else {
      assert FormatAmount(c) == p;
    }
  }

  /** The formatter's output for `q * 100 + r` cents is `q` grouped, then
      ',' and `r` on two digits. */
  lemma {:induction false} FormatCents(q: nat, r: nat)
    requires r < 100
    ensures FormatAmount(q * 100 + r) == Group(q) + "," + Zfill(Show(r), 2)
  {
    DivModCents(q, r);
  }

  lemma {:induction false} ParseParts(ip: string, fp: string)
    requires AllDigits(DeleteDots(ip)) && 1 <= |DeleteDots(ip)|
    requires AllDigits(fp) && |fp| == 2
    ensures ParseAmount(ip + "," + fp) == Some(Value(DeleteDots(ip)) * 100 + Value(fp))
  {
    var d := DeleteDots(ip);
    UnlocalizeSplit(ip, fp);
    FloatCentsDecimal(d, fp);
    ParseThrough(ip + "," + fp, d + "." + fp, Value(d) * 100 + Value(fp));
  }

  lemma {:induction false} ParseThrough(x: string, t: string, v: int)
    requires Unlocalize(x) == t && FloatCents(t) == Some(v)
    ensures ParseAmount(x) == Some(v)
  {}

  lemma {:induction false} FormatOfParts(ip: string, fp: string)
    requires Grouped(ip) && AllDigits(fp) && |fp| == 2
    ensures AllDigits(DeleteDots(ip))
    ensures FormatAmount(Value(DeleteDots(ip)) * 100 + Value(fp)) == ip + "," + fp
  {
    GroupedSpec(ip);
    CentsPart(fp);
    FormatAt(Value(DeleteDots(ip)), Value(fp), ip, fp);
  }

  /** Two cent digits are below 100 and the formatter pads them back. */
  lemma {:induction false} CentsPart(fp: string)
    requires AllDigits(fp) && |fp| == 2
    ensures Value(fp) < 100 && Zfill(Show(Value(fp)), 2) == fp
  {
    ValueBound(fp);
    Pow10Three();
    ZfillShowValue(fp, 2);
  }

  lemma {:induction false} FormatAt(q: nat, r: nat, ip: string, fp: string)
    requires r < 100 && Group(q) == ip && Zfill(Show(r), 2) == fp
    ensures FormatAmount(q * 100 + r) == ip + "," + fp
  {
    FormatCents(q, r);
  }

  lemma {:induction false} RoundTripParts(ip: string, fp: string)
    requires Grouped(ip) && AllDigits(fp) && |fp| == 2
    ensures ParseAmount(ip + "," + fp).Some?
    ensures ParseAmount(ip + "," + fp).value >= 0
    ensures FormatAmount(ParseAmount(ip + "," + fp).value) == ip + "," + fp
  {
    GroupedDigits(ip);
    ParseParts(ip, fp);
    FormatOfParts(ip, fp);
    var v := Value(DeleteDots(ip)) * 100 + Value(fp);
    assert ParseAmount(ip + "," + fp).value == v;
  }

  lemma {:induction false} DivModCents(q: nat, r: nat)
    requires r < 100
    ensures (q * 100 + r) / 100 == q && (q * 100 + r) % 100 == r
  {}

  lemma {:induction false} FormatParsePlain(s: string)
    requires CanonicalPlain(s)
    ensures ParseAmount(s).Some? && ParseAmount(s).value >= 0
    ensures FormatAmount(ParseAmount(s).value) == s
  {
    var k := IndexOf(s, ',');
    var ip, fp := s[..k], s[k + 1..];
    assert s == ip + "," + fp;
    RoundTripParts(ip, fp);
  }

  lemma {:induction false} FormatZero()
    ensures FormatAmount(0) == "0,00"
  {
    assert Show(0) == "0";
    assert Zfill("0", 2) == "00";
  }

  lemma {:induction false} FormatParseNegative(x: string)
    requires CanonicalPlain(x) && x != "0,00"
    ensures ParseAmount("-" + x).Some?
    ensures FormatAmount(ParseAmount("-" + x).value) == "-" + x
  {
    FormatParsePlain(x);
    var v := ParseAmount(x).value;
    FormatZero();
    assert v != 0;
    NegativeFormat(v, x);
    ParseFormat(-v);
  }

  lemma {:induction false} NegativeFormat(v: int, x: string)
    requires v > 0 && FormatAmount(v) == x
    ensures FormatAmount(-v) == "-" + x
  {}

  /** Formatting what the parser reads gives back the text, for every text
      already spelled the way the formatter spells amounts. */
  lemma {:induction false} FormatParse(s: string)
    requires Canonical(s)
    ensures ParseAmount(s).Some?
    ensures FormatAmount(ParseAmount(s).value) == s
  {
    if |s| > 0 && s[0] == '-' {
      assert s == "-" + s[1..];
      FormatParseNegative(s[1..]);
    } else {
      FormatParsePlain(s);
    }
  }

  /** `ParseParts` with the pieces named, so that a concrete cell can be
      read without unfolding the parser on its whole text. */
  lemma {:induction false} ParseAt(t: string, ip: string, fp: string, d: string, a: nat, b: nat)
    requires t == ip + "," + fp
    requires DeleteDots(ip) == d && AllDigits(d) && 1 <= |d| && Value(d) == a
    requires AllDigits(fp) && |fp| == 2 && Value(fp) == b
    ensures ParseAmount(t) == Some(a * 100 + b)
  {
    calc {
      ParseAmount(t);
      ParseAmount(ip + "," + fp);
      { ParseParts(ip, fp); }
      Some(Value(DeleteDots(ip)) * 100 + Value(fp));
      Some(a * 100 + b);
    }
  }

  lemma {:induction false} ThousandsDigits()
    ensures "4.333,97" == "4.333" + "," + "97"
    ensures DeleteDots("4.333") == "4333" && AllDigits("4333") && AllDigits("97")
    ensures Value("4333") == 4333 && Value("97") == 97
  {
    ThousandsDots();
    assert "4333"[..3] == "433" && "433"[..2] == "43" && "43"[..1] == "4";
    assert "97"[..1] == "9";
  }

  lemma {:induction false} ThousandsDots()
    ensures DeleteDots("4.333") == "4333"
  {
    DeleteDotsConcat("4", ".333");
    assert "4" + ".333" == "4.333";
    assert DeleteDots("4") == "4";
    assert DeleteDots(".333") == "333";
  }

  /** The thousands-separated value cell quoted in the program's comments. */
  lemma {:induction false} ParseExampleThousands()
    ensures ParseAmount("4.333,97") == Some(433397)
  {
    ThousandsDigits();
    ParseAt("4.333,97", "4.333", "97", "4333", 4333, 97);
  }

  lemma {:induction false} CentsDigits()
    ensures "51,60" == "51" + "," + "60"
    ensures DeleteDots("51") == "51" && AllDigits("51") && AllDigits("60")
    ensures Value("51") == 51 && Value("60") == 60
  {
    assert "51"[..1] == "5" && "60"[..1] == "6";
  }

  /** The plain value cell quoted in the program's comments. */
  lemma {:induction false} ParseExampleCents()
    ensures ParseAmount("51,60") == Some(5160)
  {
    CentsDigits();
    ParseAt("51,60", "51", "60", "51", 51, 60);
  }
}
