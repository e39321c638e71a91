/**
 * Canonicalisation utilities shared by the three ingesters
 * (src/finagent/tools/normalization.py): European amounts to signed cents,
 * the embedded "Valutadatum" value date, whitespace and description
 * normalisation, and the pre-image of the transaction fingerprint.
 */
module Normalization {
  import opened Wrappers
  import opened Text

  /** Why a row could not be turned into a transaction (the Python exception it raised). */
  datatype RowError =
    | MissingValue(field: string)   // AttributeError: a field was None where a string was expected
    | BadAmount(text: string)       // ValueError from float()
    | BadDate(text: string)         // ValueError from datetime.strptime

  // ---------------------------------------------------------------------------
  // parse_eu_amount_to_cents

  const NBSP: char := '\U{a0}'

  /** Direction tokens that mean "outgoing": trimmed and lower-cased to "af". */
  predicate IsAf(debitCredit: string) {
    Lower(Strip(debitCredit)) == "af"
  }

  /**
   * The literal handed to `float()`: the stripped input with every '.', NBSP
   * and space removed (every '.' counts as a thousands separator) and ','
   * turned into the decimal point.
   */
  function FloatLiteral(amountStr: string): string {
    ReplaceChar(Without(Strip(amountStr), {'.', NBSP, ' '}), ',', '.')
  }

  /**
   * `int(round(float(t) * 100))` on the literals with an optional sign, ASCII
   * digits and at most one '.' followed by at most two digits; None for
   * everything else.
   */
  function DecimalCents(t: string): Option<int> {
    var u := Strip(t);
    if |u| > 0 && u[0] == '-' then
      match UnsignedCents(u[1..])
      case None => None
      case Some(c) => Some(-(c as int))
    else if |u| > 0 && u[0] == '+' then
      match UnsignedCents(u[1..])
      case None => None
      case Some(c) => Some(c as int)
    else
      match UnsignedCents(u)
      case None => None
      case Some(c) => Some(c as int)
  }

  /** An unsigned literal: digits, then optionally '.' and at most two digits (not both parts empty). */
  function UnsignedCents(body: string): Option<nat> {
    match IndexOf(body, '.')
    case None =>
      if AllDigits(body) && |body| >= 1 then Some(DigitsValue(body) * 100) else None
    case Some(k) =>
      var whole := body[..k];
      var frac := body[k + 1..];
      if AllDigits(whole) && AllDigits(frac) && |whole| + |frac| >= 1 && |frac| <= 2 then
        Some(DigitsValue(whole) * 100 + FractionCents(frac))
      else
        None
  }

  /** The cents written by one or two fraction digits ("5" is fifty cents). */
  function FractionCents(frac: string): nat
    requires AllDigits(frac) && |frac| <= 2
  {
    if |frac| == 1 then DigitsValue(frac) * 10 else DigitsValue(frac)
  }

  function Abs(x: int): nat { if x < 0 then -x else x }

  /**
   * The signed amount in cents: the magnitude of the parsed literal, negated
   * exactly when the direction token is "af". A literal `float()` rejects is
   * a row error.
   */
  function ParseEuAmountToCents(amountStr: string, debitCredit: string): (r: Result<int, RowError>)
    ensures r.Success? <==> DecimalCents(FloatLiteral(amountStr)).Some?
    ensures r.Success? && IsAf(debitCredit) ==> r.value <= 0
    ensures r.Success? && !IsAf(debitCredit) ==> r.value >= 0
    ensures r.Success? ==> Abs(r.value) == Abs(DecimalCents(FloatLiteral(amountStr)).value)
  {
    match DecimalCents(FloatLiteral(amountStr))
    case None => Failure(BadAmount(amountStr))
    case Some(cents) =>
      var magnitude: int := Abs(cents);
      Success(if IsAf(debitCredit) then -magnitude else magnitude)
  }

  /** Cents written the way the bank exports them: whole euros, a decimal comma, two digits. */
  function FormatCents(c: nat): (s: string)
    ensures |s| >= 4 && s[|s| - 3] == ','
  {
    NatToString(c / 100) + [','] + CentDigits(c)
  }

  /** The two digits of the cents part. */
  function CentDigits(c: nat): (dd: string)
    ensures |dd| == 2 && AllDigits(dd) && DigitsValue(dd) == c % 100
  {
    var cc := c % 100;
    var dd := [DigitChar(cc / 10), DigitChar(cc % 10)];
    assert dd[..1] == [dd[0]] && dd[..1][..0] == [];
    assert DigitsValue(dd[..1]) == cc / 10;
    assert DigitsValue(dd) == (cc / 10) * 10 + cc % 10;
    dd
  }

  /** A stripped literal that starts with a digit carries no sign. */
  lemma {:induction false} DecimalCentsUnsigned(t: string)
    requires |t| >= 1 && IsDigit(t[0]) && Strip(t) == t
    ensures DecimalCents(t) == UnsignedCents(t)
  {
  }

  lemma {:induction false} UnsignedCentsOfPoint(w: string, dd: string)
    requires AllDigits(w) && |w| >= 1 && AllDigits(dd) && |dd| <= 2
    ensures UnsignedCents(w + ['.'] + dd) == Some(DigitsValue(w) * 100 + FractionCents(dd))
  {
    var t := w + ['.'] + dd;
    assert Excludes(w, '.');
    FirstSeparator(w, '.', dd);
    assert t[..|w|] == w;
    assert t[|w| + 1..] == dd;
  }

  /** A literal "<digits>.<up to two digits>" is read as that many euros and cents. */
  lemma {:induction false} DecimalCentsOfPoint(w: string, dd: string)
    requires AllDigits(w) && |w| >= 1 && AllDigits(dd) && |dd| <= 2
    ensures DecimalCents(w + ['.'] + dd) == Some(DigitsValue(w) * 100 + FractionCents(dd))
  {
    var t := w + ['.'] + dd;
    assert t[0] == w[0];
    assert t[|t| - 1] == '.' || t[|t| - 1] == dd[|dd| - 1];
    assert Trimmed(t);
    DecimalCentsUnsigned(t);
    UnsignedCentsOfPoint(w, dd);
  }

  /** With exactly two fraction digits, the fraction is read as the cents themselves. */
  lemma {:induction false} DecimalCentsOfCents(w: string, dd: string)
    requires AllDigits(w) && |w| >= 1 && AllDigits(dd) && |dd| == 2
    ensures DecimalCents(w + ['.'] + dd) == Some(DigitsValue(w) * 100 + DigitsValue(dd))
  {
    DecimalCentsOfPoint(w, dd);
  }

  /** A literal made of digits only is read as whole euros. */
  lemma {:induction false} DecimalCentsOfWhole(w: string)
    requires AllDigits(w) && |w| >= 1
    ensures DecimalCents(w) == Some(DigitsValue(w) * 100)
  {
    assert !IsSpace(w[0]) && !IsSpace(w[|w| - 1]);
    assert Excludes(w, '.');
  }

  lemma {:induction false} StripDigitsComma(w: string, dd: string)
    requires AllDigits(w) && |w| >= 1 && AllDigits(dd) && |dd| == 2
    ensures Strip(w + [','] + dd) == w + [','] + dd
  {
    var s := w + [','] + dd;
    assert s[0] == w[0] && s[|s| - 1] == dd[1];
    assert Trimmed(s);
  }

  lemma {:induction false} CommaToPoint(w: string, dd: string)
    requires AllDigits(w) && AllDigits(dd)
    ensures ReplaceChar(w + [','] + dd, ',', '.') == w + ['.'] + dd
  {
    var s := w + [','] + dd;
    var t := ReplaceChar(s, ',', '.');
    forall i | 0 <= i < |t| ensures t[i] == (w + ['.'] + dd)[i] {
      if i < |w| { assert s[i] == w[i]; } else if i > |w| { assert s[i] == dd[i - |w| - 1]; }
    }
  }

  /** Digits around a decimal comma lose nothing to the dot, NBSP and space removal. */
  lemma CommaDigitsKept(w: string, dd: string)
    requires AllDigits(w) && AllDigits(dd)
    ensures Without(w + [','] + dd, {'.', NBSP, ' '}) == w + [','] + dd
  {
    var s := w + [','] + dd;
    forall i | 0 <= i < |s| ensures s[i] !in {'.', NBSP, ' '} {
      if i < |w| { assert s[i] == w[i]; } else if i > |w| { assert s[i] == dd[i - |w| - 1]; }
    }
  }

  /** "<digits>,<two digits>" reaches `float()` as "<digits>.<two digits>". */
  lemma {:induction false} FloatLiteralOfComma(w: string, dd: string)
    requires AllDigits(w) && |w| >= 1 && AllDigits(dd) && |dd| == 2
    ensures FloatLiteral(w + [','] + dd) == w + ['.'] + dd
  {
    StripDigitsComma(w, dd);
    CommaDigitsKept(w, dd);
    CommaToPoint(w, dd);
  }

  /** "<euros>,<two cent digits>" denotes that many cents. */
  lemma {:induction false} CommaLiteralCents(w: string, dd: string)
    requires AllDigits(w) && |w| >= 1 && AllDigits(dd) && |dd| == 2
    ensures DecimalCents(FloatLiteral(w + [','] + dd)) == Some(DigitsValue(w) * 100 + DigitsValue(dd))
  {
    DecimalCentsOfCents(w, dd);
    FloatLiteralOfComma(w, dd);
  }

  /** Once the float literal is known to denote a non-negative amount, the parse is that amount signed by direction. */
  lemma {:induction false} ParseVia(amountStr: string, debitCredit: string)
    requires DecimalCents(FloatLiteral(amountStr)).Some? && DecimalCents(FloatLiteral(amountStr)).value >= 0
    ensures var cents := DecimalCents(FloatLiteral(amountStr)).value;
      ParseEuAmountToCents(amountStr, debitCredit) == Success(if IsAf(debitCredit) then -cents else cents)
  {
  }

  /** An amount "<euros>,<two cent digits>" parses to its digits read as cents, signed by direction. */
  lemma {:induction false} ParseCommaAmount(w: string, dd: string, debitCredit: string)
    requires AllDigits(w) && |w| >= 1 && AllDigits(dd) && |dd| == 2
    ensures var cents: int := DigitsValue(w) * 100 + DigitsValue(dd);
      ParseEuAmountToCents(w + [','] + dd, debitCredit) == Success(if IsAf(debitCredit) then -cents else cents)
  {
    CommaLiteralCents(w, dd);
    ParseVia(w + [','] + dd, debitCredit);
  }

  lemma EurosAndCents(c: nat)
    ensures (c / 100) * 100 + c % 100 == c
  {
  }

  lemma {:induction false} ParseCommaAmountOf(s: string, w: string, dd: string, c: nat, debitCredit: string)
    requires AllDigits(w) && |w| >= 1 && AllDigits(dd) && |dd| == 2
    requires s == w + [','] + dd && DigitsValue(w) * 100 + DigitsValue(dd) == c
    ensures ParseEuAmountToCents(s, debitCredit).Success?
    ensures ParseEuAmountToCents(s, debitCredit).value == if IsAf(debitCredit) then -(c as int) else c
  {
    ParseCommaAmount(w, dd, debitCredit);
  }

  /** Parsing a formatted amount gives back its cents, signed by the direction. */
  lemma {:induction false} ParseFormattedAmount(c: nat, debitCredit: string)
    ensures ParseEuAmountToCents(FormatCents(c), debitCredit).Success?
    ensures ParseEuAmountToCents(FormatCents(c), debitCredit).value == if IsAf(debitCredit) then -(c as int) else c
  {
    EurosAndCents(c);
    ParseCommaAmountOf(FormatCents(c), NatToString(c / 100), CentDigits(c), c, debitCredit);
  }

  /** Digits lose nothing to the dot, NBSP and space removal. */
  lemma DigitsKept(w: string)
    requires AllDigits(w)
    ensures Without(w, {'.', NBSP, ' '}) == w
  {
    forall i | 0 <= i < |w| ensures w[i] !in {'.', NBSP, ' '} { assert IsDigit(w[i]); }
  }

  /** A dot after digits is removed. */
  lemma DotDropped(w: string)
    requires AllDigits(w)
    ensures Without(w + ['.'], {'.', NBSP, ' '}) == w
  {
    DigitsKept(w);
    WithoutConcat(w, ['.'], {'.', NBSP, ' '});
    assert Without(['.'], {'.', NBSP, ' '}) == [];
  }

  /** The thousands dot of "<digits>.<digits>,<digits>" is removed, nothing else. */
  lemma GroupDotDropped(head: string, group: string, dd: string)
    requires AllDigits(head) && AllDigits(group) && AllDigits(dd)
    ensures Without(head + ['.'] + group + [','] + dd, {'.', NBSP, ' '}) == (head + group) + [','] + dd
  {
    DotDropped(head);
    CommaDigitsKept(group, dd);
    WithoutConcat(head + ['.'], group + [','] + dd, {'.', NBSP, ' '});
    GroupedShape(head, group, dd);
  }

  lemma GroupedShape(head: string, group: string, dd: string)
    ensures head + ['.'] + group + [','] + dd == (head + ['.']) + (group + [','] + dd)
    ensures head + (group + [','] + dd) == (head + group) + [','] + dd
  {
  }

  /** The literal "<1-3 digits>.<3 digits>,<2 digits>" reaches `float()` as "<digits>.<2 digits>". */
  lemma {:induction false} GroupedLiteral(head: string, group: string, dd: string)
    requires AllDigits(head) && 1 <= |head| <= 3 && AllDigits(group) && |group| == 3
    requires AllDigits(dd) && |dd| == 2
    ensures FloatLiteral(head + ['.'] + group + [','] + dd) == (head + group) + ['.'] + dd
  {
    var s := head + ['.'] + group + [','] + dd;
    assert s[0] == head[0] && s[|s| - 1] == dd[1];
    assert Strip(s) == s;
    GroupDotDropped(head, group, dd);
    assert AllDigits(head + group);
    CommaToPoint(head + group, dd);
  }

  /** "<1-3 digits>.<3 digits>,<2 digits>" denotes the digits without the dot as cents. */
  lemma {:induction false} GroupedCents(head: string, group: string, dd: string)
    requires AllDigits(head) && 1 <= |head| <= 3 && AllDigits(group) && |group| == 3
    requires AllDigits(dd) && |dd| == 2
    ensures AllDigits(head + group)
    ensures DecimalCents(FloatLiteral(head + ['.'] + group + [','] + dd)) == Some(DigitsValue(head + group) * 100 + DigitsValue(dd))
  {
    GroupedLiteral(head, group, dd);
    assert AllDigits(head + group);
    DecimalCentsOfCents(head + group, dd);
  }

  /**
   * A grouped amount "<1-3 digits>.<3 digits>,<2 digits>" (as in "1.234,56")
   * loses its thousands dot and keeps its decimal comma.
   */
  lemma {:induction false} ParseGroupedAmount(head: string, group: string, dd: string, debitCredit: string)
    requires AllDigits(head) && 1 <= |head| <= 3 && AllDigits(group) && |group| == 3
    requires AllDigits(dd) && |dd| == 2
    ensures AllDigits(head + group)
    ensures var cents: int := DigitsValue(head + group) * 100 + DigitsValue(dd);
      ParseEuAmountToCents(head + ['.'] + group + [','] + dd, debitCredit) ==
      Success(if IsAf(debitCredit) then -cents else cents)
  {
    GroupedCents(head, group, dd);
    ParseVia(head + ['.'] + group + [','] + dd, debitCredit);
  }

  /** The literal "<digits>.<digit>" reaches `float()` with its dot removed. */
  lemma {:induction false} DotDecimalLiteral(w: string, d: char)
    requires AllDigits(w) && |w| >= 1 && IsDigit(d)
    ensures FloatLiteral(w + ['.', d]) == w + [d]
  {
    var drop := {'.', NBSP, ' '};
    var s := w + ['.', d];
    assert s == w + ['.'] + [d];
    assert s[0] == w[0] && s[|s| - 1] == d;
    assert Trimmed(s);
    forall i | 0 <= i < |w| ensures w[i] !in drop { assert IsDigit(w[i]); }
    WithoutConcat(w + ['.'], [d], drop);
    WithoutConcat(w, ['.'], drop);
    assert Without(['.'], drop) == [];
    assert Without([d], drop) == [d];
    var u := w + [d];
    assert Without(s, drop) == u;
    assert ReplaceChar(u, ',', '.') == u;
  }

  /**
   * A dot-decimal amount such as "1.5" is read as fifteen euros: every '.'
   * counts as a thousands separator, so the dot is dropped, not read.
   */
  lemma {:induction false} ParseDotDecimalAmount(w: string, d: char, debitCredit: string)
    requires AllDigits(w) && |w| >= 1 && IsDigit(d)
    ensures var cents: int := DigitsValue(w + [d]) * 100;
      ParseEuAmountToCents(w + ['.', d], debitCredit) == Success(if IsAf(debitCredit) then -cents else cents)
  {
    DotDecimalLiteral(w, d);
    assert AllDigits(w + [d]);
    DecimalCentsOfWhole(w + [d]);
    ParseVia(w + ['.', d], debitCredit);
  }

  // ---------------------------------------------------------------------------
  // Calendar dates

  /** `\d{2}-\d{2}-\d{4}` starting at position i of s. */
  predicate DmyAt(s: string, i: nat) {
    && i + 10 <= |s|
    && IsDigit(s[i]) && IsDigit(s[i + 1]) && s[i + 2] == '-'
    && IsDigit(s[i + 3]) && IsDigit(s[i + 4]) && s[i + 5] == '-'
    && IsDigit(s[i + 6]) && IsDigit(s[i + 7]) && IsDigit(s[i + 8]) && IsDigit(s[i + 9])
  }

  predicate DmyToken(t: string) { |t| == 10 && DmyAt(t, 0) }

  /** `yyyy-mm-dd`, the shape `date.isoformat()` produces. */
  predicate IsoShaped(t: string) {
    && |t| == 10 && t[4] == '-' && t[7] == '-'
    && AllDigits(t[..4]) && AllDigits(t[5..7]) && AllDigits(t[8..])
  }

  predicate IsLeapYear(y: int) { y % 4 == 0 && (y % 100 != 0 || y % 400 == 0) }

  function DaysInMonth(y: int, m: int): int {
    if m == 2 then (if IsLeapYear(y) then 29 else 28)
    else if m == 4 || m == 6 || m == 9 || m == 11 then 30
    else 31
  }

  /** A date `datetime` accepts: year 1 to 9999, month 1 to 12, day within the month. */
  predicate ValidDate(y: int, m: int, d: int) {
    1 <= y <= 9999 && 1 <= m <= 12 && 1 <= d <= DaysInMonth(y, m)
  }

  function DayOf(t: string): nat requires DmyToken(t) { DigitsValue(t[0..2]) }
  function MonthOf(t: string): nat requires DmyToken(t) { DigitsValue(t[3..5]) }
  function YearOf(t: string): nat requires DmyToken(t) { DigitsValue(t[6..10]) }

  /** The inverse reordering, from `yyyy-mm-dd` back to `dd-mm-yyyy`. */
  function IsoToDmy(iso: string): string
    requires |iso| == 10
  {
    iso[8..10] + "-" + iso[5..7] + "-" + iso[0..4]
  }

  /**
   * `datetime.strptime(t, "%d-%m-%Y").date().isoformat()`: the same digits
   * reordered as `yyyy-mm-dd`, or a row error for an impossible date.
   */
  function DmyToIso(t: string): (r: Result<string, RowError>)
    requires DmyToken(t)
    ensures r.Success? <==> ValidDate(YearOf(t), MonthOf(t), DayOf(t))
    ensures r.Success? ==> IsoShaped(r.value) && IsoToDmy(r.value) == t
  {
    if ValidDate(YearOf(t), MonthOf(t), DayOf(t)) then
      var iso := t[6..10] + "-" + t[3..5] + "-" + t[0..2];
      assert iso[8..10] == t[0..2] && iso[5..7] == t[3..5] && iso[0..4] == t[6..10];
      assert t == t[0..2] + "-" + t[3..5] + "-" + t[6..10];
      Success(iso)
    else
      Failure(BadDate(t))
  }

  // ---------------------------------------------------------------------------
  // try_extract_value_date

  const ValutaLabel: string := "Valutadatum:"

  /**
   * If `Valutadatum:\s*\d{2}-\d{2}-\d{4}` matches at position i of s, the
   * position where its date token starts.
   */
  function ValutaTokenAt(s: string, i: nat): (r: Option<nat>)
    ensures r.Some? ==> DmyAt(s, r.value)
  {
    var n := |ValutaLabel|;
    if i + n <= |s| && s[i..i + n] == ValutaLabel then
      var k := i + n + SpaceRun(s[i + n..]);
      if DmyAt(s, k) then Some(k) else None
    else
      None
  }

  /** The leftmost position from i on where the value-date pattern matches. */
  function FindValutaFrom(s: string, i: nat): (r: Option<nat>)
    requires i <= |s|
    ensures r.Some? ==> i <= r.value <= |s| && ValutaTokenAt(s, r.value).Some?
    ensures r.Some? ==> forall j :: i <= j < r.value ==> ValutaTokenAt(s, j).None?
    ensures r.None? ==> forall j :: i <= j <= |s| ==> ValutaTokenAt(s, j).None?
    decreases |s| - i
  {
    if ValutaTokenAt(s, i).Some? then Some(i)
    else if i == |s| then None
    else FindValutaFrom(s, i + 1)
  }

  /** The `dd-mm-yyyy` token of the value-date match at position j. */
  function ValutaDate(text: string, j: nat): (t: string)
    requires ValutaTokenAt(text, j).Some?
    ensures DmyToken(t)
  {
    var k := ValutaTokenAt(text, j).value;
    text[k..k + 10]
  }

  /**
   * The first embedded `Valutadatum: dd-mm-yyyy` as an ISO date; Success(None)
   * when there is none, and a row error when the first one is impossible.
   */
  function TryExtractValueDate(text: string): (r: Result<Option<string>, RowError>)
    ensures r == Success(None) <==> forall j :: 0 <= j <= |text| ==> ValutaTokenAt(text, j).None?
    ensures r.Success? && r.value.Some? ==>
      exists j :: FirstValuta(text, j) && IsoShaped(r.value.value) && |r.value.value| == 10 &&
        IsoToDmy(r.value.value) == ValutaDate(text, j) &&
        ValidDate(YearOf(ValutaDate(text, j)), MonthOf(ValutaDate(text, j)), DayOf(ValutaDate(text, j)))
    ensures r.Failure? ==>
      exists j :: FirstValuta(text, j) &&
        !ValidDate(YearOf(ValutaDate(text, j)), MonthOf(ValutaDate(text, j)), DayOf(ValutaDate(text, j)))
  {
    match FindValutaFrom(text, 0)
    case None => Success(None)
    case Some(j) =>
      assert FirstValuta(text, j);
      match DmyToIso(ValutaDate(text, j))
      case Success(iso) => Success(Some(iso))
      case Failure(e) => Failure(e)
  }

  /** j is the leftmost position where the value-date pattern matches. */
  predicate FirstValuta(text: string, j: nat) {
    && j <= |text|
    && ValutaTokenAt(text, j).Some?
    && forall i :: 0 <= i < j ==> ValutaTokenAt(text, i).None?
  }

  /**
   * Given the leftmost match j, the outcome is decided by its date alone: a
   * row error exactly when that date does not exist in the calendar, and
   * otherwise the ISO form of exactly that date.
   */
  lemma ValueDateOfFirst(text: string, j: nat)
    requires FirstValuta(text, j)
    ensures var t := ValutaDate(text, j);
      && (TryExtractValueDate(text).Failure? <==> !ValidDate(YearOf(t), MonthOf(t), DayOf(t)))
      && (TryExtractValueDate(text).Success? ==>
            TryExtractValueDate(text).value.Some? && IsoToDmy(TryExtractValueDate(text).value.value) == t)
  {
    var k := FindValutaFrom(text, 0);
    assert k.Some? by {
      assert ValutaTokenAt(text, j).Some?;
    }
    assert k.value == j;
  }

  // ---------------------------------------------------------------------------
  // normalize_text and normalize_description

  /**
   * `normalize_text`: strip, then collapse every whitespace run to one space.
   * The result is trimmed and single-spaced.
   */
  function NormalizeText(value: string): (r: string)
    ensures Trimmed(r) && SingleSpaced(r)
    ensures |r| <= |value|
  {
    Collapse(Strip(value))
  }

  /** Normalising twice is the same as normalising once. */
  lemma {:induction false} NormalizeTextIdempotent(value: string)
    ensures NormalizeText(NormalizeText(value)) == NormalizeText(value)
  {
    var r := NormalizeText(value);
    assert Strip(r) == r;
    CollapseFixpoint(r);
  }

  /** `str.split()` with no argument: the maximal runs of non-whitespace, in order. */
  function Words(s: string): (ws: seq<string>)
    ensures forall k :: 0 <= k < |ws| ==> ws[k] != []
    ensures forall k :: 0 <= k < |ws| ==> forall i :: 0 <= i < |ws[k]| ==> !IsSpace(ws[k][i])
    decreases |s|
  {
    if s == [] then []
    else if IsSpace(s[0]) then Words(s[SpaceRun(s)..])
    else
      var n := NonSpaceRun(s);
      [s[..n]] + Words(s[n..])
  }

  /**
   * `normalize_text(v)` is `" ".join(v.split())`: the words of the input, in
   * order and unchanged, separated by single spaces.
   */
  lemma NormalizeTextJoinsWords(value: string)
    ensures NormalizeText(value) == Join(' ', Words(value))
  {
    WordsTrimLeft(value);
    WordsTrimRight(TrimLeft(value));
    CollapseTrimmed(Strip(value));
  }

  /** Collapsing a trimmed string joins its words with single spaces. */
  lemma {:induction false} CollapseTrimmed(t: string)
    requires Trimmed(t)
    ensures Collapse(t) == Join(' ', Words(t))
    decreases |t|
  {
    if t != [] {
      var n := NonSpaceRun(t);
      assert t == t[..n] + t[n..];
      CollapseWord(t[..n], t[n..]);
      if n == |t| {
        SingleWord(t);
      } else {
        var v := t[n..][SpaceRun(t[n..])..];
        CollapseTrimmedStep(t, n, v);
        CollapseTrimmed(v);
        calc {
          Collapse(t);
          t[..n] + Collapse(t[n..]);
          t[..n] + (" " + Collapse(v));
          t[..n] + ([' '] + Join(' ', Words(v)));
          { JoinCons(' ', t[..n], Words(v)); }
          Join(' ', [t[..n]] + Words(v));
        }
      }
    }
  }

  /** A string without whitespace is one word, and `Collapse` keeps it. */
  lemma SingleWord(t: string)
    requires t != [] && NonSpaceRun(t) == |t|
    ensures Words(t) == [t] && Collapse(t) == t
  {
    assert t[..|t|] == t && t[|t|..] == [];
    CollapseWord(t, []);
    assert t + [] == t;
  }

  /** After the first word and the whitespace run behind it, what is left is trimmed again. */
  lemma CollapseTrimmedStep(t: string, n: nat, v: string)
    requires Trimmed(t) && t != [] && n == NonSpaceRun(t) && n < |t|
    requires v == t[n..][SpaceRun(t[n..])..]
    ensures |v| < |t| && Trimmed(v) && v != []
    ensures Collapse(t[n..]) == " " + Collapse(v)
    ensures Words(t) == [t[..n]] + Words(v) && Words(v) != []
  {
    var u := t[n..];
    assert u[|u| - 1] == t[|t| - 1];
    assert v != [] && !IsSpace(v[0]);
    assert v[|v| - 1] == t[|t| - 1];
  }

  /** A word in front is kept as it is by `Collapse`. */
  lemma {:induction false} CollapseWord(w: string, u: string)
    requires forall i :: 0 <= i < |w| ==> !IsSpace(w[i])
    ensures Collapse(w + u) == w + Collapse(u)
    decreases |w|
  {
    if w == [] {
      assert w + u == u;
    } else {
      assert w + u == [w[0]] + (w[1..] + u);
      CollapseCons(w[0], w[1..] + u);
      CollapseWord(w[1..], u);
      ConsAssoc(w[0], w[1..], Collapse(u));
      assert w == [w[0]] + w[1..];
    }
  }

  lemma CollapseCons(x: char, u: string)
    requires !IsSpace(x)
    ensures Collapse([x] + u) == [x] + Collapse(u)
  {
    assert ([x] + u)[1..] == u;
  }

  lemma JoinCons(sep: char, w: string, ws: seq<string>)
    requires ws != []
    ensures Join(sep, [w] + ws) == w + ([sep] + Join(sep, ws))
  {
    assert ([w] + ws)[1..] == ws;
    assert w + [sep] + Join(sep, ws) == w + ([sep] + Join(sep, ws));
  }

  /** Leading whitespace does not change the words. */
  lemma {:induction false} WordsTrimLeft(s: string)
    ensures Words(TrimLeft(s)) == Words(s)
    decreases |s|
  {
    if s != [] && IsSpace(s[0]) {
      WordsSkipSpace(s);
      WordsTrimLeft(s[1..]);
    }
  }

  /** Trailing whitespace does not change the words. */
  lemma {:induction false} WordsTrimRight(s: string)
    ensures Words(TrimRight(s)) == Words(s)
    decreases |s|
  {
    if s != [] && IsSpace(s[|s| - 1]) {
      var a := s[..|s| - 1];
      assert s == a + [s[|s| - 1]];
      WordsDropSpace(a, s[|s| - 1]);
      WordsTrimRight(a);
    }
  }

  lemma {:induction false} WordsSkipSpace(s: string)
    requires s != [] && IsSpace(s[0])
    ensures Words(s) == Words(s[1..])
  {
    var x := s[1..];
    assert s[SpaceRun(s)..] == x[SpaceRun(x)..];
    if x != [] && IsSpace(x[0]) {
    } else {
      assert x[SpaceRun(x)..] == x;
    }
  }

  lemma {:induction false} WordsDropSpace(a: string, c: char)
    requires IsSpace(c)
    ensures Words(a + [c]) == Words(a)
    decreases |a|
  {
    var s := a + [c];
    if a == [] {
      assert SpaceRun(s) == 1;
      assert s[1..] == [];
    } else if IsSpace(a[0]) {
      WordsSkipSpace(s);
      assert s[1..] == a[1..] + [c];
      WordsDropSpace(a[1..], c);
      WordsSkipSpace(a);
    } else {
      var n := NonSpaceRun(a);
      NonSpaceRunUnique(s, n);
      assert s[..n] == a[..n];
      assert s[n..] == a[n..] + [c];
      WordsDropSpace(a[n..], c);
    }
  }

  lemma NonSpaceRunUnique(s: string, k: nat)
    requires k <= |s| && forall i :: 0 <= i < k ==> !IsSpace(s[i])
    requires k == |s| || IsSpace(s[k])
    ensures NonSpaceRun(s) == k
  {
  }

  /** The volatile fragments removed from descriptions, in the order they are removed. */
  datatype Volatile = Timestamp | CardSequence | Terminal | ApplePay | TransactionRef

  const VolatilePatterns: seq<Volatile> := [Timestamp, CardSequence, Terminal, ApplePay, TransactionRef]

  /** `s` starts with `lit`, ignoring ASCII case (the patterns are applied with IGNORECASE). */
  predicate StartsWithCI(s: string, lit: string) {
    |lit| <= |s| && Lower(s[..|lit|]) == Lower(lit)
  }

  function DigitRun(s: string): (n: nat)
    ensures n <= |s| && AllDigits(s[..n])
    ensures n == |s| || !IsDigit(s[n])
  {
    if s != [] && IsDigit(s[0]) then
      var n := 1 + DigitRun(s[1..]);
      assert s[..n] == [s[0]] + s[1..][..n - 1];
      n
    else 0
  }

  function NonSpaceRun(s: string): (n: nat)
    ensures n <= |s| && forall i :: 0 <= i < n ==> !IsSpace(s[i])
    ensures n == |s| || IsSpace(s[n])
  {
    if s != [] && !IsSpace(s[0]) then 1 + NonSpaceRun(s[1..]) else 0
  }

  /** `\d{2}:\d{2}:\d{2}` starting at position i of s. */
  predicate HmsAt(s: string, i: nat) {
    && i + 8 <= |s|
    && IsDigit(s[i]) && IsDigit(s[i + 1]) && s[i + 2] == ':'
    && IsDigit(s[i + 3]) && IsDigit(s[i + 4]) && s[i + 5] == ':'
    && IsDigit(s[i + 6]) && IsDigit(s[i + 7])
  }

  /**
   * `lit` (any ASCII case), optional whitespace, then a non-empty run of
   * digits (`\d+`) or of non-whitespace (`\S+`).
   */
  function LabelledRun(s: string, lit: string, digits: bool): (r: Option<nat>)
    ensures r.Some? ==> |lit| < r.value <= |s|
  {
    if StartsWithCI(s, lit) then
      var i := |lit| + SpaceRun(s[|lit|..]);
      var n := if digits then DigitRun(s[i..]) else NonSpaceRun(s[i..]);
      if n >= 1 then Some(i + n) else None
    else None
  }

  /**
   * The length of the match of pattern p at the start of s, if any:
   *   Timestamp       Datum/Tijd:\s*\d{2}-\d{2}-\d{4}\s*\d{2}:\d{2}:\d{2}
   *   CardSequence    Pasvolgnr:\s*\d+
   *   Terminal        Term:\s*\S+
   *   ApplePay        Apple Pay
   *   TransactionRef  Transactie:\s*\S+
   * Each of these matches in at most one way (greedy quantifiers never have
   * to give anything back), so the length is the one `re` finds.
   */
  function MatchVolatile(p: Volatile, s: string): (r: Option<nat>)
    ensures r.Some? ==> 0 < r.value <= |s|
  {
    match p
    case Timestamp =>
      var lit := "Datum/Tijd:";
      if !StartsWithCI(s, lit) then None
      else
        var i := |lit| + SpaceRun(s[|lit|..]);
        if !DmyAt(s, i) then None
        else
          var j := i + 10 + SpaceRun(s[i + 10..]);
          if HmsAt(s, j) then Some(j + 8) else None
    case CardSequence => LabelledRun(s, "Pasvolgnr:", true)
    case Terminal => LabelledRun(s, "Term:", false)
    case ApplePay => if StartsWithCI(s, "Apple Pay") then Some(9) else None
    case TransactionRef => LabelledRun(s, "Transactie:", false)
  }

  /**
   * A matcher gives the length of a match at the start of a string, if any;
   * a match is never empty and never longer than the string.
   */
  type Matcher = m: string -> Option<nat> | forall s :: m(s).Some? ==> 0 < m(s).value <= |s|
    witness (s: string) => None

  function VolatileMatcher(p: Volatile): Matcher {
    s => MatchVolatile(p, s)
  }

  /** `re.sub(m, "", s)`: delete the leftmost non-overlapping matches of m. */
  function RemoveMatches(s: string, m: Matcher): (r: string)
    ensures |r| <= |s|
    decreases |s|
  {
    if s == [] then []
    else match m(s)
      case Some(n) => RemoveMatches(s[n..], m)
      case None => [s[0]] + RemoveMatches(s[1..], m)
  }

  /** `re.sub(p, "", s, flags=re.IGNORECASE)` for one volatile pattern. */
  function RemovePattern(s: string, p: Volatile): (r: string)
    ensures |r| <= |s|
  {
    RemoveMatches(s, VolatileMatcher(p))
  }

  /** The patterns applied one after the other, in list order. */
  function RemovePatterns(s: string, ps: seq<Volatile>): (r: string)
    ensures |r| <= |s|
    decreases ps
  {
    if ps == [] then s else RemovePatterns(RemovePattern(s, ps[0]), ps[1..])
  }

  /** A string in which the matcher matches nowhere is left unchanged. */
  lemma {:induction false} RemoveMatchesNoMatch(s: string, m: Matcher)
    requires forall i :: 0 <= i < |s| ==> m(s[i..]).None?
    ensures RemoveMatches(s, m) == s
  {
    if s != [] {
      assert s[0..] == s;
      forall i | 0 <= i < |s[1..]| ensures m(s[1..][i..]).None? {
        assert s[1..][i..] == s[i + 1..];
      }
      RemoveMatchesNoMatch(s[1..], m);
      assert s == [s[0]] + s[1..];
    }
  }

  /** A prefix in which no match starts is kept as it is. */
  lemma {:induction false} RemoveMatchesKeepsPrefix(a: string, r: string, m: Matcher)
    requires forall i :: 0 <= i < |a| ==> m((a + r)[i..]).None?
    ensures RemoveMatches(a + r, m) == a + RemoveMatches(r, m)
  {
    if a == [] {
      assert a + r == r;
    } else {
      var s := a + r;
      var a' := a[1..];
      assert s[0..] == s;
      assert m(s[0..]).None?;
      assert s[1..] == a' + r;
      assert RemoveMatches(s, m) == [s[0]] + RemoveMatches(a' + r, m);
      forall i | 0 <= i < |a'| ensures m((a' + r)[i..]).None? {
        assert (a' + r)[i..] == s[i + 1..];
      }
      RemoveMatchesKeepsPrefix(a', r, m);
      assert a == [s[0]] + a';
      ConsAssoc(s[0], a', RemoveMatches(r, m));
    }
  }

  lemma ConsAssoc(x: char, u: string, v: string)
    ensures [x] + (u + v) == ([x] + u) + v
  {
  }

  /**
   * A matched token is dropped whole: when nothing matches in the text before
   * it, deleting matches from `a + token + c` leaves `a` followed by the
   * deletion applied to `c`, whatever the token's own content.
   */
  lemma {:induction false} RemoveMatchesDropsToken(a: string, token: string, c: string, m: Matcher)
    requires m(token + c) == Some(|token|)
    requires forall i :: 0 <= i < |a| ==> m((a + (token + c))[i..]).None?
    ensures RemoveMatches(a + (token + c), m) == a + RemoveMatches(c, m)
  {
    RemoveMatchesKeepsPrefix(a, token + c, m);
    assert (token + c)[|token|..] == c;
  }

  /**
   * Two descriptions that differ only in one volatile token (a timestamp, a
   * card sequence number, a terminal id, a transaction reference) lose their
   * difference when that pattern is removed.
   */
  lemma {:induction false} VolatileTokenIgnored(a: string, t1: string, t2: string, c: string, p: Volatile)
    requires MatchVolatile(p, t1 + c) == Some(|t1|) && MatchVolatile(p, t2 + c) == Some(|t2|)
    requires forall i :: 0 <= i < |a| ==> MatchVolatile(p, (a + (t1 + c))[i..]).None?
    requires forall i :: 0 <= i < |a| ==> MatchVolatile(p, (a + (t2 + c))[i..]).None?
    ensures RemovePattern(a + (t1 + c), p) == RemovePattern(a + (t2 + c), p)
  {
    var m := VolatileMatcher(p);
    forall i | 0 <= i < |a| ensures m((a + (t1 + c))[i..]).None? && m((a + (t2 + c))[i..]).None? {
    }
    RemoveMatchesDropsToken(a, t1, c, m);
    RemoveMatchesDropsToken(a, t2, c, m);
  }

  /**
   * `normalize_description`: normalise the text, delete the volatile patterns
   * in list order, collapse whitespace and strip. The result is trimmed and
   * single-spaced.
   */
  function NormalizeDescription(desc: string): (r: string)
    ensures Trimmed(r) && SingleSpaced(r)
    ensures |r| <= |desc|
  {
    var v := Collapse(RemovePatterns(NormalizeText(desc), VolatilePatterns));
    StripSingleSpaced(v);
    Strip(v)
  }

  /** Patterns that match nowhere in s leave it unchanged, whatever their order. */
  lemma {:induction false} RemovePatternsNoMatch(s: string, ps: seq<Volatile>)
    requires forall p: Volatile, i :: 0 <= i < |s| ==> MatchVolatile(p, s[i..]).None?
    ensures RemovePatterns(s, ps) == s
    decreases ps
  {
    if ps != [] {
      RemoveMatchesNoMatch(s, VolatileMatcher(ps[0]));
      RemovePatternsNoMatch(s, ps[1..]);
    }
  }

  /**
   * Patterns earlier in the list that match nowhere have no effect: removing
   * the list is removing pattern k and then the ones after it.
   */
  lemma {:induction false} RemovePatternsFrom(s: string, ps: seq<Volatile>, k: nat)
    requires k < |ps|
    requires forall q: Volatile, i :: q in ps[..k] && 0 <= i < |s| ==> MatchVolatile(q, s[i..]).None?
    ensures RemovePatterns(s, ps) == RemovePatterns(RemovePattern(s, ps[k]), ps[k + 1..])
    decreases k
  {
    if k > 0 {
      assert ps[0] in ps[..k];
      RemoveMatchesNoMatch(s, VolatileMatcher(ps[0]));
      assert ps[1..][..k - 1] == ps[1..k];
      assert forall q :: q in ps[1..k] ==> q in ps[..k];
      RemovePatternsFrom(s, ps[1..], k - 1);
      assert ps[1..][k - 1] == ps[k] && ps[1..][k..] == ps[k + 1..];
    }
  }

  /**
   * A description in which no volatile pattern matches anywhere (after
   * `normalize_text`) normalises to exactly `normalize_text` of it.
   */
  lemma NormalizeDescriptionNoVolatile(desc: string)
    requires forall p: Volatile, i :: 0 <= i < |NormalizeText(desc)| ==> MatchVolatile(p, NormalizeText(desc)[i..]).None?
    ensures NormalizeDescription(desc) == NormalizeText(desc)
  {
    var v := NormalizeText(desc);
    RemovePatternsNoMatch(v, VolatilePatterns);
    CollapseFixpoint(v);
  }

  /**
   * Two descriptions whose normalised texts differ only in one token of the
   * k-th volatile pattern normalise to the same description, provided the
   * patterns removed before it match nowhere in either text.
   */
  lemma VolatileTokenIgnoredInDescription(d1: string, d2: string, a: string, t1: string, t2: string, c: string, k: nat)
    requires k < |VolatilePatterns|
    requires NormalizeText(d1) == a + (t1 + c) && NormalizeText(d2) == a + (t2 + c)
    requires MatchVolatile(VolatilePatterns[k], t1 + c) == Some(|t1|)
    requires MatchVolatile(VolatilePatterns[k], t2 + c) == Some(|t2|)
    requires forall i :: 0 <= i < |a| ==> MatchVolatile(VolatilePatterns[k], (a + (t1 + c))[i..]).None?
    requires forall i :: 0 <= i < |a| ==> MatchVolatile(VolatilePatterns[k], (a + (t2 + c))[i..]).None?
    requires forall q: Volatile, i :: q in VolatilePatterns[..k] && 0 <= i < |a + (t1 + c)| ==>
      MatchVolatile(q, (a + (t1 + c))[i..]).None?
    requires forall q: Volatile, i :: q in VolatilePatterns[..k] && 0 <= i < |a + (t2 + c)| ==>
      MatchVolatile(q, (a + (t2 + c))[i..]).None?
    ensures NormalizeDescription(d1) == NormalizeDescription(d2)
  {
    RemovePatternsFrom(a + (t1 + c), VolatilePatterns, k);
    RemovePatternsFrom(a + (t2 + c), VolatilePatterns, k);
    VolatileTokenIgnored(a, t1, t2, c, VolatilePatterns[k]);
  }

  // ---------------------------------------------------------------------------
  // TxnHashInput and compute_txn_hash

  datatype TxnHashInput = TxnHashInput(
    accountId: int,
    bookingDate: string,
    valueDate: Option<string>,
    amountCents: int,
    currency: string,
    debitCredit: string,
    counterpartyIbanOrName: string,
    normalizedDescription: string)

  /** The eight fields of the fingerprint, in order, as they are rendered before joining. */
  function HashParts(inp: TxnHashInput): (parts: seq<string>)
    ensures |parts| == 8
  {
    [ IntToString(inp.accountId),
      inp.bookingDate,
      inp.valueDate.GetOr(""),
      IntToString(inp.amountCents),
      Upper(inp.currency),
      Upper(inp.debitCredit),
      Upper(NormalizeText(inp.counterpartyIbanOrName)),
      Upper(inp.normalizedDescription) ]
  }

  /**
   * The pre-image of `compute_txn_hash`: the parts joined with '|'. The model
   * uses the pre-image itself as the fingerprint, i.e. SHA-256 is taken to be
   * collision-free.
   */
  function Fingerprint(inp: TxnHashInput): string {
    Join('|', HashParts(inp))
  }

  /**
   * The fingerprint depends only on the rendered parts: a missing value date
   * and an empty one agree, and currency, direction, counterparty and
   * description are compared without regard to ASCII case.
   */
  lemma {:induction false} FingerprintDependsOnlyOnParts(a: TxnHashInput, b: TxnHashInput)
    requires a.accountId == b.accountId && a.bookingDate == b.bookingDate
    requires a.valueDate.GetOr("") == b.valueDate.GetOr("")
    requires a.amountCents == b.amountCents
    requires Upper(a.currency) == Upper(b.currency)
    requires Upper(a.debitCredit) == Upper(b.debitCredit)
    requires Upper(NormalizeText(a.counterpartyIbanOrName)) == Upper(NormalizeText(b.counterpartyIbanOrName))
    requires Upper(a.normalizedDescription) == Upper(b.normalizedDescription)
    ensures Fingerprint(a) == Fingerprint(b)
  {
  }

  predicate PartsExclude(inp: TxnHashInput, c: char) {
    forall k :: 0 <= k < 8 ==> Excludes(HashParts(inp)[k], c)
  }

  /**
   * While no field contains '|', two fingerprints are equal exactly when all
   * eight rendered fields are; in particular the account ids and the amounts
   * are then equal.
   */
  lemma {:induction false} FingerprintSeparatesFields(a: TxnHashInput, b: TxnHashInput)
    requires PartsExclude(a, '|') && PartsExclude(b, '|')
    ensures Fingerprint(a) == Fingerprint(b) <==> HashParts(a) == HashParts(b)
    ensures Fingerprint(a) == Fingerprint(b) ==> a.accountId == b.accountId && a.amountCents == b.amountCents
  {
    JoinInjective('|', HashParts(a), HashParts(b));
    IntToStringInjective(a.accountId, b.accountId);
    IntToStringInjective(a.amountCents, b.amountCents);
  }
}
