/**
 * The option identifiers and the root finder of equity/utils.py.  An identifier is
 * the underlying's ticker, the expiry as yymmdd, 'C' or 'P', and the strike in eight
 * digits (five before and three after the decimal point), e.g. AAPL250815C00237500.
 * Strikes are modelled as whole thousandths, which is all the identifier can carry.
 */
module EquityUtils {
  import opened Wrappers
  import opened Decimal
  import opened QfDate

  datatype OptionType = Call | Put

  /** What parse_option_id returns. */
  datatype OptionId = OptionId(underlying: string, maturity: Date, optionType: OptionType, strike: real)

  /** The position Python uses for slice bound `i` of a sequence of length `n`. */
  function SliceBound(i: int, n: nat): (b: nat)
    ensures b <= n
    ensures 0 <= i <= n ==> b == i
    ensures -(n as int) <= i < 0 ==> b == n + i
  {
    if i < 0 then (if i + n < 0 then 0 else i + n) else if i > n then n else i
  }

  /** s[i:j] in Python. */
  function Slice(s: string, i: int, j: int): string
  {
    var lo := SliceBound(i, |s|);
    var hi := SliceBound(j, |s|);
    if lo < hi then s[lo..hi] else []
  }

  /** s[i:] in Python. */
  function SliceFrom(s: string, i: int): string
  {
    s[SliceBound(i, |s|)..]
  }

  /** s[:j] in Python. */
  function SliceTo(s: string, j: int): string
  {
    s[..SliceBound(j, |s|)]
  }

  /**
   * float(whole + "." + fraction) where both sides are ASCII digit strings: the value of
   * the digits with the fraction scaled down by its length, at least one side having a
   * digit.  The other forms Python's float() accepts (a sign, surrounding whitespace,
   * underscores between digits) give Err here.
   */
  function ParseDecimal(whole: string, fraction: string): (r: Result<real>)
    ensures r.Ok? <==> AllDigits(whole) && AllDigits(fraction) && whole + fraction != []
  {
    if AllDigits(whole) && AllDigits(fraction) && whole + fraction != [] then
      Ok(DigitsValue(whole) as real + DigitsValue(fraction) as real / Pow10(|fraction|) as real)
    else
      Err("could not convert string to float")
  }

  /**
   * parse_option_id: the strike is read first, then the type letter (an IndexError when
   * the identifier is shorter than nine characters), then the date, which the QfDate
   * constructor validates; the underlying is everything before the last fifteen characters.
   */
  function ParseOptionId(id: string, calendar: string, convention: string): (r: Result<OptionId>)
    ensures r.Ok? ==> |id| >= 9
    ensures r.Ok? ==> r.value.underlying == SliceTo(id, -15)
    ensures r.Ok? ==> (r.value.optionType == Call <==> id[|id| - 9] == 'C')
    ensures r.Ok? ==> Valid(r.value.maturity)
  {
    var strike := ParseDecimal(Slice(id, -8, -3), SliceFrom(id, -3));
    if strike.Err? then Err(strike.msg)
    else if |id| < 9 then Err("string index out of range")
    else
      var optionType := if id[|id| - 9] == 'C' then Call else Put;
      var dateText := Slice(id, -15, -9);
      var yy := ParseInt(SliceTo(dateText, 2));
      if yy.Err? then Err(yy.msg)
      else
        var mm := ParseInt(Slice(dateText, 2, 4));
        if mm.Err? then Err(mm.msg)
        else
          var dd := ParseInt(SliceFrom(dateText, 4));
          if dd.Err? then Err(dd.msg)
          else
            var maturity := NewDate(2000 + yy.value, mm.value, dd.value, calendar, convention);
            if maturity.Err? then Err(maturity.msg)
            else Ok(OptionId(SliceTo(id, -15), maturity.value, optionType, strike.value))
  }

  /** The eight strike digits: f"{strike:.3f}" split at the point, padded to 5 + 3 digits. */
  function StrikeField(thousandths: nat): string
  {
    PadLeft(NatToString(thousandths / 1000), 5, '0')
      + PadRight(PadLeft(NatToString(thousandths % 1000), 3, '0'), 3, '0')
  }

  function TypeLetter(t: OptionType): char
  {
    if t == Call then 'C' else 'P'
  }

  /** The yymmdd field as written: str(year - 2000), with only month and day padded. */
  function ExpiryField(d: Date): string
  {
    IntToString(d.year - 2000) + PadLeft(IntToString(d.month), 2, '0') + PadLeft(IntToString(d.day), 2, '0')
  }

  /** form_option_id as written. */
  function FormOptionId(underlying: string, maturity: Date, optionType: OptionType, strikeThousandths: nat): string
  {
    underlying + ExpiryField(maturity) + [TypeLetter(optionType)] + StrikeField(strikeThousandths)
  }

  /** The yymmdd field with the year zero-padded as well. */
  function PaddedExpiryField(d: Date): string
  {
    PadLeft(IntToString(d.year - 2000), 2, '0') + PadLeft(IntToString(d.month), 2, '0') + PadLeft(IntToString(d.day), 2, '0')
  }

  /** form_option_id with a two-digit year, the layout parse_option_id reads. */
  function FormOptionIdPadded(underlying: string, maturity: Date, optionType: OptionType, strikeThousandths: nat): string
  {
    underlying + PaddedExpiryField(maturity) + [TypeLetter(optionType)] + StrikeField(strikeThousandths)
  }

  /** A number below 10^k, padded to k digits, is k digits that read back as the number. */
  lemma {:induction false} PaddedDigits(n: nat, k: nat)
    requires 1 <= k && n < Pow10(k)
    ensures |PadLeft(NatToString(n), k, '0')| == k
    ensures AllDigits(PadLeft(NatToString(n), k, '0'))
    ensures DigitsValue(PadLeft(NatToString(n), k, '0')) == n
  {
    NatToStringLength(n, k);
    NatToStringValue(n);
    PadLeftValue(NatToString(n), k);
  }

  /** The strike field is eight digits: five for the whole part and three for the thousandths. */
  lemma {:induction false} StrikeFieldLayout(k: nat)
    requires k < 100000000
    ensures |StrikeField(k)| == 8
    ensures AllDigits(StrikeField(k)[..5]) && DigitsValue(StrikeField(k)[..5]) == k / 1000
    ensures AllDigits(StrikeField(k)[5..]) && DigitsValue(StrikeField(k)[5..]) == k % 1000
  {
    PaddedDigits(k / 1000, 5);
    PaddedDigits(k % 1000, 3);
    var w := PadLeft(NatToString(k / 1000), 5, '0');
    var f := PadLeft(NatToString(k % 1000), 3, '0');
    assert StrikeField(k) == w + f;
    assert (w + f)[..5] == w && (w + f)[5..] == f;
  }

  /** For a year in [2000, 2099] the padded yymmdd field is six digits that read back as the date. */
  lemma {:induction false} PaddedExpiryLayout(d: Date)
    requires Valid(d) && 2000 <= d.year <= 2099
    ensures var e := PaddedExpiryField(d);
      |e| == 6 && AllDigits(e[..2]) && DigitsValue(e[..2]) == d.year - 2000
      && AllDigits(e[2..4]) && DigitsValue(e[2..4]) == d.month
      && AllDigits(e[4..]) && DigitsValue(e[4..]) == d.day
  {
    PaddedDigits(d.year - 2000, 2);
    PaddedDigits(d.month, 2);
    PaddedDigits(d.day, 2);
    var y := PadLeft(NatToString(d.year - 2000), 2, '0');
    var m := PadLeft(NatToString(d.month), 2, '0');
    var dd := PadLeft(NatToString(d.day), 2, '0');
    assert PaddedExpiryField(d) == y + m + dd;
    assert (y + m + dd)[..2] == y && (y + m + dd)[2..4] == m && (y + m + dd)[4..] == dd;
  }

  /** An all-digit string of length at least one is accepted by int() with its digit value. */
  lemma DigitsParse(s: string)
    requires s != [] && AllDigits(s)
    ensures ParseInt(s) == Ok(DigitsValue(s) as int)
  {
  }

  /** int() reads the three two-digit groups of a padded expiry field back as the date. */
  lemma {:induction false} ExpiryParse(d: Date)
    requires Valid(d) && 2000 <= d.year <= 2099
    ensures var e := PaddedExpiryField(d);
      ParseInt(SliceTo(e, 2)) == Ok(d.year - 2000)
      && ParseInt(Slice(e, 2, 4)) == Ok(d.month)
      && ParseInt(SliceFrom(e, 4)) == Ok(d.day)
  {
    var e := PaddedExpiryField(d);
    PaddedExpiryLayout(d);
    assert SliceTo(e, 2) == e[..2] && Slice(e, 2, 4) == e[2..4] && SliceFrom(e, 4) == e[4..];
    DigitsParse(e[..2]);
    DigitsParse(e[2..4]);
    DigitsParse(e[4..]);
  }

  /** The value of the strike field read with its decimal point is the strike. */
  lemma {:induction false} StrikeValue(k: nat)
    requires k < 100000000
    ensures ParseDecimal(StrikeField(k)[..5], StrikeField(k)[5..]) == Ok(k as real / 1000.0)
  {
    StrikeFieldLayout(k);
    assert Pow10(3) == 1000;
    assert k == (k / 1000) * 1000 + k % 1000;
  }

  /** The fields of a padded identifier, seen through parse_option_id's negative slices. */
  lemma {:induction false} PaddedSlices(u: string, e: string, t: char, s: string)
    requires |e| == 6 && |s| == 8
    ensures var id := u + e + [t] + s;
      |id| == |u| + 15
      && Slice(id, -8, -3) == s[..5] && SliceFrom(id, -3) == s[5..]
      && id[|id| - 9] == t && Slice(id, -15, -9) == e && SliceTo(id, -15) == u
  {
    var id := u + e + [t] + s;
    assert id[|u| + 7..|u| + 12] == s[..5];
    assert id[|u| + 12..] == s[5..];
    assert id[|u|..|u| + 6] == e;
    assert id[..|u|] == u;
  }

  /** parse_option_id succeeds once each of its steps does. */
  lemma ParseAccepts(id: string, calendar: string, convention: string, whole: string, fraction: string,
                     strike: real, t: OptionType, expiry: string, yy: int, mm: int, dd: int, maturity: Date)
    requires Slice(id, -8, -3) == whole && SliceFrom(id, -3) == fraction
    requires ParseDecimal(whole, fraction) == Ok(strike)
    requires |id| >= 9 && (t == Call <==> id[|id| - 9] == 'C')
    requires Slice(id, -15, -9) == expiry
    requires ParseInt(SliceTo(expiry, 2)) == Ok(yy)
    requires ParseInt(Slice(expiry, 2, 4)) == Ok(mm)
    requires ParseInt(SliceFrom(expiry, 4)) == Ok(dd)
    requires NewDate(2000 + yy, mm, dd, calendar, convention) == Ok(maturity)
    ensures ParseOptionId(id, calendar, convention) == Ok(OptionId(SliceTo(id, -15), maturity, t, strike))
  {
  }

  /** An identifier whose strike, type letter and yymmdd fields read back as k, t and d parses as them. */
  lemma ParseLaidOut(id: string, u: string, d: Date, t: OptionType, k: nat)
    requires Valid(d) && 2000 <= d.year <= 2099
    requires |id| >= 9 && id[|id| - 9] == TypeLetter(t) && SliceTo(id, -15) == u
    requires ParseDecimal(Slice(id, -8, -3), SliceFrom(id, -3)) == Ok(k as real / 1000.0)
    requires ParseInt(SliceTo(Slice(id, -15, -9), 2)) == Ok(d.year - 2000)
    requires ParseInt(Slice(Slice(id, -15, -9), 2, 4)) == Ok(d.month)
    requires ParseInt(SliceFrom(Slice(id, -15, -9), 4)) == Ok(d.day)
    ensures ParseOptionId(id, CalendarName(d.calendar), ConventionName(d.convention))
              == Ok(OptionId(u, d, t, k as real / 1000.0))
  {
    ReconstructDate(d);
    var yy := d.year - 2000;
    assert 2000 + yy == d.year;
    ParseAccepts(id, CalendarName(d.calendar), ConventionName(d.convention), Slice(id, -8, -3), SliceFrom(id, -3),
                 k as real / 1000.0, t, Slice(id, -15, -9), yy, d.month, d.day, d);
  }

  /**
   * Reading back an identifier formed with a padded year gives back the underlying,
   * the maturity, the type and the strike, for every year 2000-2099 and strike below 100000.
   */
  lemma {:induction false} PaddedRoundTrip(u: string, d: Date, t: OptionType, k: nat)
    requires Valid(d) && 2000 <= d.year <= 2099 && k < 100000000
    ensures ParseOptionId(FormOptionIdPadded(u, d, t, k), CalendarName(d.calendar), ConventionName(d.convention))
              == Ok(OptionId(u, d, t, k as real / 1000.0))
  {
    PaddedExpiryLayout(d);
    StrikeFieldLayout(k);
    PaddedSlices(u, PaddedExpiryField(d), TypeLetter(t), StrikeField(k));
    StrikeValue(k);
    ExpiryParse(d);
    ParseLaidOut(FormOptionIdPadded(u, d, t, k), u, d, t, k);
  }

  /** From 2010 on the year needs no padding, so both forms agree. */
  lemma {:induction false} FormsAgreeFrom2010(u: string, d: Date, t: OptionType, k: nat)
    requires 2010 <= d.year <= 2099
    ensures FormOptionId(u, d, t, k) == FormOptionIdPadded(u, d, t, k)
  {
    NatToStringLengthAtLeast(d.year - 2000, 2);
  }

  /** form_option_id as written round-trips for maturities in 2010-2099. */
  lemma {:induction false} RoundTrip(u: string, d: Date, t: OptionType, k: nat)
    requires Valid(d) && 2010 <= d.year <= 2099 && k < 100000000
    ensures ParseOptionId(FormOptionId(u, d, t, k), CalendarName(d.calendar), ConventionName(d.convention))
              == Ok(OptionId(u, d, t, k as real / 1000.0))
  {
    FormsAgreeFrom2010(u, d, t, k);
    PaddedRoundTrip(u, d, t, k);
  }

  /**
   * As written, a maturity before 2010 loses a digit: 15 August 2005 forms
   * "AAPL50815C00237500", one character short of the layout.
   */
  lemma UnpaddedYearExample()
    ensures var d := Date(2005, 8, 15, Frankfurt, Business252);
      Valid(d) && FormOptionId("AAPL", d, Call, 237500) == "AAPL" + "50815" + "C" + "00237500"
  {
    var d := Date(2005, 8, 15, Frankfurt, Business252);
    var e := ExpiryField(d);
    var sf := StrikeField(237500);
    assert FormOptionId("AAPL", d, Call, 237500) == "AAPL" + e + "C" + sf;
    ExpiryExample();
    StrikeExample();
  }

  lemma ExpiryExample()
    ensures ExpiryField(Date(2005, 8, 15, Frankfurt, Business252)) == "50815"
  {
    assert IntToString(5) == "5";
    assert PadLeft(IntToString(8), 2, '0') == "08";
    assert NatToString(15) == NatToString(1) + [DigitChar(5)];
    assert PadLeft(IntToString(15), 2, '0') == "15";
  }

  lemma StrikeExample()
    ensures StrikeField(237500) == "00237500"
  {
    assert 237500 / 1000 == 237 && 237500 % 1000 == 500;
    assert NatToString(23) == NatToString(2) + [DigitChar(3)];
    assert NatToString(237) == NatToString(23) + [DigitChar(7)];
    var whole := PadLeft(NatToString(237), 5, '0');
    assert whole == "00237";
    assert NatToString(50) == NatToString(5) + [DigitChar(0)];
    assert NatToString(500) == NatToString(50) + [DigitChar(0)];
    var fraction := PadRight(PadLeft(NatToString(500), 3, '0'), 3, '0');
    assert fraction == "500";
    assert StrikeField(237500) == whole + fraction;
  }

  /** ...and parse_option_id reads that identifier's date field as "L50815" and rejects it. */
  lemma UnpaddedYearRejected()
    ensures ParseOptionId("AAPL" + "50815" + "C" + "00237500", "Frankfurt", "Business/252").Err?
  {
    var id := "AAPL" + "50815" + "C" + "00237500";
    assert Slice(id, -8, -3) == "00237" && SliceFrom(id, -3) == "500";
    assert Slice(id, -15, -9) == "L50815";
    assert SliceTo("L50815", 2) == "L5";
    assert ParseInt("L5").Err?;
  }

  /** Both halves together: a 2005 maturity does not survive the round trip as written. */
  lemma UnpaddedYearBreaksRoundTrip()
    ensures var d := Date(2005, 8, 15, Frankfurt, Business252);
      Valid(d) && ParseOptionId(FormOptionId("AAPL", d, Call, 237500), CalendarName(d.calendar), ConventionName(d.convention)).Err?
  {
    assert CalendarName(Frankfurt) == "Frankfurt";
    assert ConventionName(Business252) == "Business/252";
    UnpaddedYearExample();
    UnpaddedYearRejected();
  }

  function Pow2(k: nat): (p: real)
    ensures p >= 1.0
  {
    if k == 0 then 1.0 else 2.0 * Pow2(k - 1)
  }

  /** Halving a width above the tolerance lowers the number of tolerances it spans. */
  lemma HalvingShrinks(w: real, tol: real)
    requires w > tol > 0.0
    ensures 0 <= ((w / 2.0) / tol).Floor < (w / tol).Floor
  {
    var x := w / tol;
    assert x > 1.0;
    assert (w / 2.0) / tol == x / 2.0;
  }

  /** Halving a width that is a power-of-two fraction of the original one. */
  lemma HalvedWidth(low: real, up: real, mid: real, total: real, k: nat)
    requires up - low == total / Pow2(k) && mid == (up + low) / 2.0
    ensures mid - low == total / Pow2(k + 1) && up - mid == total / Pow2(k + 1)
  {
    var p := Pow2(k);
    assert Pow2(k + 1) == 2.0 * p;
    assert total / (2.0 * p) == (total / p) / 2.0;
  }

  /**
   * bisection_method: the bracket must be ordered and change sign, otherwise the
   * assertions fail.  Each pass halves the bracket and keeps the sign change; the
   * result is the midpoint of the final bracket, either a root or a bracket no wider
   * than `tol`.
   */
  method Bisection(f: real -> real, lower: real, upper: real, tol: real)
    returns (r: Result<real>, ghost lo: real, ghost hi: real, ghost halvings: nat)
    requires tol > 0.0
    ensures r.Err? <==> !(upper > lower) || !(f(upper) > 0.0 && f(lower) < 0.0)
    ensures r.Ok? ==> lower <= lo < hi <= upper && f(lo) < 0.0 < f(hi)
    ensures r.Ok? ==> hi - lo == (upper - lower) / Pow2(halvings)
    ensures r.Ok? ==> r.value == (lo + hi) / 2.0 && lower < r.value < upper
    ensures r.Ok? ==> f(r.value) == 0.0 || hi - lo <= tol
  {
    lo, hi, halvings := lower, upper, 0;
    if !(upper > lower) {
      return Err("Upper bound should be greater than lower bound!"), lo, hi, halvings;
    }
    if !(f(upper) > 0.0 && f(lower) < 0.0) {
      return Err("The upper and lower bound should get different signs from function 'func'!"), lo, hi, halvings;
    }
    var low, up := lower, upper;
    while up - low > tol
      invariant lower <= low < up <= upper && f(low) < 0.0 < f(up)
      invariant up - low == (upper - lower) / Pow2(halvings)
      decreases ((up - low) / tol).Floor
    {
      HalvingShrinks(up - low, tol);
      var mid := (up + low) / 2.0;
      HalvedWidth(low, up, mid, upper - lower, halvings);
      if f(mid) < 0.0 {
        low := mid;
      } else if f(mid) > 0.0 {
        up := mid;
      } else {
        return Ok(mid), low, up, halvings;
      }
      halvings := halvings + 1;
    }
    return Ok((up + low) / 2.0), low, up, halvings;
  }
}
