/**
 * `ingest_pdf_generic` (src/finagent/tools/pdf_ingest.py): import a bank
 * statement PDF heuristically. The page texts are joined, split into
 * non-blank stripped lines, and every line holding both a `dd-mm-yyyy` date
 * and a European amount becomes a candidate transaction. All rows of one
 * document go to one account: the first IBAN in the text, or a shared
 * "unknown PDF" bucket.
 */
module PdfIngest {
  import opened Wrappers
  import opened Text
  import opened Normalization
  import opened Ledger
  import opened Storage

  // ---------------------------------------------------------------------------
  // _extract_lines

  predicate NoBreak(s: string) {
    forall i :: 0 <= i < |s| ==> !IsLineBreak(s[i])
  }

  /** The first line boundary in `s`. */
  function FirstBreak(s: string): (r: Option<nat>)
    ensures r.Some? ==> r.value < |s| && IsLineBreak(s[r.value]) && NoBreak(s[..r.value])
    ensures r.None? ==> NoBreak(s)
  {
    if s == [] then None
    else if IsLineBreak(s[0]) then Some(0)
    else match FirstBreak(s[1..])
      case None => None
      case Some(k) =>
        assert s[..k + 1] == [s[0]] + s[1..][..k];
        Some(k + 1)
  }

  /**
   * The pieces between line boundaries, in order. (`splitlines` treats
   * "\r\n" as one boundary and drops a final empty piece; both differences
   * only produce blank pieces, which `_extract_lines` discards.)
   */
  function Pieces(text: string): (r: seq<string>)
    ensures |r| >= 1
    ensures forall k :: 0 <= k < |r| ==> NoBreak(r[k])
    decreases |text|
  {
    match FirstBreak(text)
    case None => [text]
    case Some(i) => [text[..i]] + Pieces(text[i + 1..])
  }

  /** Strip every piece and keep the non-blank ones, in order. */
  function KeepLines(pieces: seq<string>): (r: seq<string>)
    ensures |r| <= |pieces|
    ensures forall k :: 0 <= k < |r| ==> r[k] != "" && Trimmed(r[k])
    decreases |pieces|
  {
    if pieces == [] then []
    else
      var line := Strip(pieces[0]);
      (if line != "" then [line] else []) + KeepLines(pieces[1..])
  }

  /** Stripping adds no line break, so kept lines of break-free pieces are break-free. */
  lemma {:induction false} KeepLinesNoBreak(pieces: seq<string>)
    requires forall k :: 0 <= k < |pieces| ==> NoBreak(pieces[k])
    ensures forall k :: 0 <= k < |KeepLines(pieces)| ==> NoBreak(KeepLines(pieces)[k])
    decreases |pieces|
  {
    if pieces != [] {
      var line := Strip(pieces[0]);
      StripNoBreak(pieces[0]);
      KeepLinesNoBreak(pieces[1..]);
      var rest := KeepLines(pieces[1..]);
      var head := if line != "" then [line] else [];
      assert KeepLines(pieces) == head + rest;
      forall k | 0 <= k < |head + rest| ensures NoBreak((head + rest)[k]) {
        if k >= |head| {
          assert (head + rest)[k] == rest[k - |head|];
        }
      }
    }
  }

  lemma {:induction false} StripNoBreak(s: string)
    requires NoBreak(s)
    ensures NoBreak(Strip(s))
  {
    var t := TrimLeft(s);
    TrimLeftSuffix(s);
    TrimRightPrefix(t);
    var r := Strip(s);
    assert r == t[..|r|];
    forall i | 0 <= i < |r| ensures !IsLineBreak(r[i]) {
      assert r[i] == s[|s| - |t| + i];
    }
  }

  /** `_extract_lines(text)`: the stripped, non-blank lines, in their original order. */
  function ExtractLines(text: string): (r: seq<string>)
    ensures forall k :: 0 <= k < |r| ==> r[k] != "" && Trimmed(r[k]) && NoBreak(r[k])
  {
    KeepLinesNoBreak(Pieces(text));
    KeepLines(Pieces(text))
  }

  /** A text without line boundaries is a single piece. */
  lemma PiecesWhole(s: string)
    requires NoBreak(s)
    ensures Pieces(s) == [s]
  {
  }

  /**
   * When every line boundary is '\n', joining the pieces with '\n' gives
   * back the text: nothing is lost or reordered by the split.
   */
  lemma {:induction false} PiecesJoin(text: string)
    requires forall i :: 0 <= i < |text| && IsLineBreak(text[i]) ==> text[i] == '\n'
    ensures Join('\n', Pieces(text)) == text
    decreases |text|
  {
    match FirstBreak(text)
    case None =>
    case Some(i) =>
      var rest := text[i + 1..];
      forall j | 0 <= j < |rest| && IsLineBreak(rest[j]) ensures rest[j] == '\n' {
        assert rest[j] == text[i + 1 + j];
      }
      PiecesJoin(rest);
      JoinCons('\n', text[..i], Pieces(rest));
      assert text == text[..i] + (['\n'] + rest);
  }

  /** One piece is kept, stripped, exactly when it is not blank. */
  lemma KeepLinesOne(p: string)
    ensures KeepLines([p]) == if Strip(p) == "" then [] else [Strip(p)]
  {
    assert [p][1..] == [];
  }

  /**
   * Every kept line is some stripped piece, and every piece that is not
   * blank once stripped is kept.
   */
  lemma {:induction false} KeepLinesMembers(pieces: seq<string>)
    ensures forall line :: line in KeepLines(pieces) ==> exists k :: 0 <= k < |pieces| && line == Strip(pieces[k])
    ensures forall k :: 0 <= k < |pieces| && Strip(pieces[k]) != "" ==> Strip(pieces[k]) in KeepLines(pieces)
    decreases |pieces|
  {
    if pieces != [] {
      KeepLinesMembers(pieces[1..]);
      var rest := KeepLines(pieces[1..]);
      var head := if Strip(pieces[0]) != "" then [Strip(pieces[0])] else [];
      assert KeepLines(pieces) == head + rest;
      forall line | line in head + rest
        ensures exists k :: 0 <= k < |pieces| && line == Strip(pieces[k])
      {
        if line in rest {
          var k :| 0 <= k < |pieces[1..]| && line == Strip(pieces[1..][k]);
          assert pieces[1..][k] == pieces[k + 1];
        } else {
          assert line == Strip(pieces[0]);
        }
      }
      forall k | 0 < k < |pieces| && Strip(pieces[k]) != ""
        ensures Strip(pieces[k]) in head + rest
      {
        assert pieces[1..][k - 1] == pieces[k];
      }
    }
  }

  /** A text without line boundaries has one line, its stripped self, unless it is blank. */
  lemma ExtractLinesOne(s: string)
    requires NoBreak(s)
    ensures ExtractLines(s) == if Strip(s) == "" then [] else [Strip(s)]
  {
    PiecesWhole(s);
    KeepLinesOne(s);
  }

  lemma {:induction false} PiecesSplit(a: string, c: char, b: string)
    requires IsLineBreak(c)
    ensures Pieces(a + [c] + b) == Pieces(a) + Pieces(b)
    decreases |a|, 1
  {
    match FirstBreak(a)
    case None => PiecesSplitLast(a, c, b);
    case Some(i) => PiecesSplitInner(a, c, b, i);
  }

  /** No break in a: the added break is the first one. */
  lemma PiecesSplitLast(a: string, c: char, b: string)
    requires IsLineBreak(c) && FirstBreak(a).None?
    ensures Pieces(a + [c] + b) == Pieces(a) + Pieces(b)
  {
    var s := a + [c] + b;
    assert s[..|a|] == a;
    assert FirstBreak(s) == Some(|a|) by {
      assert s[|a|] == c;
    }
    assert s[|a| + 1..] == b;
  }

  /** A break at i in a: both sides split there first. */
  lemma {:induction false} PiecesSplitInner(a: string, c: char, b: string, i: nat)
    requires IsLineBreak(c) && FirstBreak(a) == Some(i)
    ensures Pieces(a + [c] + b) == Pieces(a) + Pieces(b)
    decreases |a|, 0
  {
    var rest := a[i + 1..] + [c] + b;
    FirstBreakKept(a, [c] + b, i);
    assert a + [c] + b == a + ([c] + b);
    assert a[i + 1..] + ([c] + b) == rest;
    assert Pieces(a + [c] + b) == [a[..i]] + Pieces(rest);
    PiecesSplit(a[i + 1..], c, b);
    ConsAppend(a[..i], Pieces(a[i + 1..]), Pieces(b));
  }

  lemma ConsAppend(x: string, p: seq<string>, q: seq<string>)
    ensures [x] + (p + q) == ([x] + p) + q
  {
  }

  /** Text appended after a break does not move the first break. */
  lemma FirstBreakKept(a: string, t: string, i: nat)
    requires FirstBreak(a) == Some(i)
    ensures FirstBreak(a + t) == Some(i)
    ensures (a + t)[..i] == a[..i] && (a + t)[i + 1..] == a[i + 1..] + t
  {
    var s := a + t;
    assert s[..i] == a[..i];
    assert s[i] == a[i];
    assert s[i + 1..] == a[i + 1..] + t;
  }

  lemma {:induction false} KeepLinesAppend(p: seq<string>, q: seq<string>)
    ensures KeepLines(p + q) == KeepLines(p) + KeepLines(q)
    decreases |p|
  {
    if p != [] {
      assert (p + q)[0] == p[0];
      assert (p + q)[1..] == p[1..] + q;
      KeepLinesAppend(p[1..], q);
    } else {
      assert p + q == q;
    }
  }

  /** Lines never span a boundary: the lines of `a + "\n" + b` are those of `a` followed by those of `b`. */
  lemma {:induction false} ExtractLinesSplit(a: string, b: string)
    ensures ExtractLines(a + "\n" + b) == ExtractLines(a) + ExtractLines(b)
  {
    PiecesSplit(a, '\n', b);
    KeepLinesAppend(Pieces(a), Pieces(b));
  }

  /** The lines of each page, page after page. */
  function PageLines(texts: seq<string>): seq<string>
    decreases |texts|
  {
    if texts == [] then [] else ExtractLines(texts[0]) + PageLines(texts[1..])
  }

  /** The lines of the joined page texts are the lines of the pages, in page order. */
  lemma {:induction false} JoinedPagesLines(texts: seq<string>)
    ensures ExtractLines(Join('\n', texts)) == PageLines(texts)
    decreases |texts|
  {
    if |texts| == 0 {
      assert Pieces("") == [""];
    } else if |texts| == 1 {
      assert PageLines(texts[1..]) == [];
    } else {
      ExtractLinesSplit(texts[0], Join('\n', texts[1..]));
      JoinedPagesLines(texts[1..]);
    }
  }

  // ---------------------------------------------------------------------------
  // _guess_account_iban

  /** `\b[A-Z]{2}\d{2}[A-Z]{4}\d{10}\b` matches at position i. */
  predicate IbanAt(s: string, i: nat) {
    && i + 18 <= |s|
    && (i == 0 || !IsWordChar(s[i - 1]))
    && IsUpperLetter(s[i]) && IsUpperLetter(s[i + 1])
    && IsDigit(s[i + 2]) && IsDigit(s[i + 3])
    && (forall k :: i + 4 <= k < i + 8 ==> IsUpperLetter(s[k]))
    && (forall k :: i + 8 <= k < i + 18 ==> IsDigit(s[k]))
    && (i + 18 == |s| || !IsWordChar(s[i + 18]))
  }

  function FindIbanFrom(s: string, i: nat): (r: Option<nat>)
    requires i <= |s|
    ensures r.Some? ==> i <= r.value < |s| && IbanAt(s, r.value)
    ensures r.Some? ==> forall j :: i <= j < r.value ==> !IbanAt(s, j)
    ensures r.None? ==> forall j :: i <= j <= |s| ==> !IbanAt(s, j)
    decreases |s| - i
  {
    if IbanAt(s, i) then Some(i)
    else if i == |s| then None
    else FindIbanFrom(s, i + 1)
  }

  /** `_guess_account_iban(text)`: the leftmost IBAN-shaped word, or None. */
  function GuessAccountIban(text: string): (r: Option<string>)
    ensures r.None? <==> forall j :: 0 <= j <= |text| ==> !IbanAt(text, j)
    ensures r.Some? ==> exists j :: 0 <= j < |text| && IbanAt(text, j) && r.value == text[j..j + 18] &&
                                    forall i :: 0 <= i < j ==> !IbanAt(text, i)
    ensures r.Some? ==> |r.value| == 18
  {
    match FindIbanFrom(text, 0)
    case None => None
    case Some(j) => Some(text[j..j + 18])
  }

  // ---------------------------------------------------------------------------
  // The date and amount patterns

  /** `\b\d{2}-\d{2}-\d{4}\b` matches at position i. */
  predicate DateAt(s: string, i: nat) {
    && DmyAt(s, i)
    && (i == 0 || !IsWordChar(s[i - 1]))
    && (i + 10 == |s| || !IsWordChar(s[i + 10]))
  }

  /** Length of the run of `.ddd` groups at the front of t (greedy). */
  function GroupRun(t: string): (n: nat)
    ensures n <= |t|
    decreases |t|
  {
    if |t| >= 4 && t[0] == '.' && IsDigit(t[1]) && IsDigit(t[2]) && IsDigit(t[3]) then 4 + GroupRun(t[4..])
    else 0
  }

  /**
   * `\d{1,3}(?:\.\d{3})*,\d{2}` at the front of t: the match length. Only the
   * whole digit run and the whole group run can be followed by ',', so the
   * backtracking regex and this greedy reading agree.
   */
  function UnsignedAmountAt(t: string): (r: Option<nat>)
    ensures r.Some? ==> 4 <= r.value <= |t|
  {
    var k := DigitRun(t);
    if 1 <= k <= 3 then
      var j := k + GroupRun(t[k..]);
      if j + 3 <= |t| && t[j] == ',' && IsDigit(t[j + 1]) && IsDigit(t[j + 2]) then Some(j + 3) else None
    else None
  }

  /** `[-+]?\d{1,3}(?:\.\d{3})*,\d{2}` at the front of t: the match length. */
  function AmountAt(t: string): (r: Option<nat>)
    ensures r.Some? ==> 0 < r.value <= |t|
  {
    if t != [] && (t[0] == '-' || t[0] == '+') then
      match UnsignedAmountAt(t[1..])
      case Some(n) => Some(n + 1)
      case None => None
    else UnsignedAmountAt(t)
  }

  lemma {:induction false} DigitRunIs(u: string, k: nat)
    requires k < |u| && AllDigits(u[..k]) && !IsDigit(u[k])
    ensures DigitRun(u) == k
    decreases k
  {
    if k > 0 {
      assert IsDigit(u[..k][0]);
      assert u[1..][..k - 1] == u[..k][1..];
      DigitRunIs(u[1..], k - 1);
    }
  }

  lemma {:induction false} GroupRunPrefix(v: string, len: nat)
    requires GroupRun(v) < len <= |v| && v[GroupRun(v)] != '.'
    ensures GroupRun(v[..len]) == GroupRun(v)
    decreases |v|
  {
    if |v| >= 4 && v[0] == '.' && IsDigit(v[1]) && IsDigit(v[2]) && IsDigit(v[3]) {
      assert v[..len][4..] == v[4..][..len - 4];
      GroupRunPrefix(v[4..], len - 4);
    }
  }

  /** The unsigned amount pattern matches its own match again, in full. */
  lemma {:induction false} UnsignedAmountLocal(t: string)
    requires UnsignedAmountAt(t).Some?
    ensures var m := UnsignedAmountAt(t).value; UnsignedAmountAt(t[..m]) == Some(m)
  {
    var m := UnsignedAmountAt(t).value;
    var u := t[..m];
    var k := DigitRun(t);
    var g := GroupRun(t[k..]);
    assert u[..k] == t[..k];
    DigitRunIs(u, k);
    assert u[k..] == t[k..][..m - k];
    GroupRunPrefix(t[k..], m - k);
  }

  /** The amount pattern matches its own match again, in full. */
  lemma {:induction false} AmountPrefixMatches(t: string)
    requires AmountAt(t).Some?
    ensures var n := AmountAt(t).value; AmountAt(t[..n]) == Some(n)
  {
    var n := AmountAt(t).value;
    if t != [] && (t[0] == '-' || t[0] == '+') {
      var m := UnsignedAmountAt(t[1..]).value;
      assert n == m + 1;
      UnsignedAmountLocal(t[1..]);
      assert t[..n][0] == t[0];
      assert t[..n][1..] == t[1..][..m];
      assert UnsignedAmountAt(t[..n][1..]) == Some(m);
    } else {
      UnsignedAmountLocal(t);
    }
  }

  function FindDateFrom(s: string, i: nat): (r: Option<nat>)
    requires i <= |s|
    ensures r.Some? ==> i <= r.value && DateAt(s, r.value)
    ensures r.Some? ==> forall j :: i <= j < r.value ==> !DateAt(s, j)
    ensures r.None? ==> forall j :: i <= j <= |s| ==> !DateAt(s, j)
    decreases |s| - i
  {
    if DateAt(s, i) then Some(i)
    else if i == |s| then None
    else FindDateFrom(s, i + 1)
  }

  /** An amount match starts at position i of s. */
  predicate AmountStart(s: string, i: nat) {
    i <= |s| && AmountAt(s[i..]).Some?
  }

  function FindAmountFrom(s: string, i: nat): (r: Option<nat>)
    requires i <= |s|
    ensures r.Some? ==> i <= r.value < |s| && AmountStart(s, r.value)
    ensures r.Some? ==> forall j :: i <= j < r.value ==> !AmountStart(s, j)
    ensures r.None? ==> forall j :: i <= j <= |s| ==> !AmountStart(s, j)
    decreases |s| - i
  {
    if AmountStart(s, i) then Some(i)
    else if i == |s| then None
    else FindAmountFrom(s, i + 1)
  }

  /** `_DATE_RE.sub("", s)` from position i: every date match dropped, scanning left to right. */
  function RemoveDatesFrom(s: string, i: nat): (r: string)
    requires i <= |s|
    ensures |r| <= |s| - i
    decreases |s| - i
  {
    if i == |s| then []
    else if DateAt(s, i) then RemoveDatesFrom(s, i + 10)
    else [s[i]] + RemoveDatesFrom(s, i + 1)
  }

  /** `_AMOUNT_RE.sub("", s)` from position i. */
  function RemoveAmountsFrom(s: string, i: nat): (r: string)
    requires i <= |s|
    ensures |r| <= |s| - i
    decreases |s| - i
  {
    if i == |s| then []
    else match AmountAt(s[i..])
      case Some(n) => RemoveAmountsFrom(s, i + n)
      case None => [s[i]] + RemoveAmountsFrom(s, i + 1)
  }

  /** Where no date matches from position i on, removing the dates keeps the rest of the line as it is. */
  lemma {:induction false} RemoveDatesNoMatch(s: string, i: nat)
    requires i <= |s| && FindDateFrom(s, i).None?
    ensures RemoveDatesFrom(s, i) == s[i..]
    decreases |s| - i
  {
    if i < |s| {
      RemoveDatesNoMatch(s, i + 1);
      assert s[i..] == [s[i]] + s[i + 1..];
    }
  }

  /** Where no amount matches from position i on, removing the amounts keeps the rest of the line as it is. */
  lemma {:induction false} RemoveAmountsNoMatch(s: string, i: nat)
    requires i <= |s| && FindAmountFrom(s, i).None?
    ensures RemoveAmountsFrom(s, i) == s[i..]
    decreases |s| - i
  {
    if i < |s| {
      RemoveAmountsNoMatch(s, i + 1);
      assert s[i..] == [s[i]] + s[i + 1..];
    }
  }

  // ---------------------------------------------------------------------------
  // _iter_tx_candidates

  datatype Candidate = Candidate(date: string, description: string, amount: string)

  /** A candidate's date is a `dd-mm-yyyy` token and its amount a whole amount match. */
  predicate TokenShaped(c: Candidate) {
    DmyToken(c.date) && AmountAt(c.amount) == Some(|c.amount|)
  }

  /**
   * The candidate line i yields, if it holds both a date and an amount: the
   * first date, the first amount, and the line without its dates and amounts
   * (stripped), or else the next line, or "" after the last line.
   */

  function CandidateAt(lines: seq<string>, i: nat): (r: Option<Candidate>)
    requires i < |lines|
    ensures r.Some? <==> FindDateFrom(lines[i], 0).Some? && FindAmountFrom(lines[i], 0).Some?
    ensures r.Some? ==> TokenShaped(r.value)
    ensures r.Some? ==> var d := FindDateFrom(lines[i], 0).value; d + 10 <= |lines[i]| && r.value.date == lines[i][d..d + 10]
    ensures r.Some? ==> r.value.amount <= lines[i][FindAmountFrom(lines[i], 0).value..]
    ensures r.Some? ==> r.value.description == Description(lines, i)
  {
    LineCandidate(lines[i], Description(lines, i))
  }

  /** The candidate of one line, given the description chosen for it. */
  function LineCandidate(ln: string, desc: string): (r: Option<Candidate>)
    ensures r.Some? <==> FindDateFrom(ln, 0).Some? && FindAmountFrom(ln, 0).Some?
    ensures r.Some? ==> TokenShaped(r.value) && r.value.description == desc
    ensures r.Some? ==> var d := FindDateFrom(ln, 0).value; d + 10 <= |ln| && r.value.date == ln[d..d + 10]
    ensures r.Some? ==> r.value.amount <= ln[FindAmountFrom(ln, 0).value..]
  {
    var d := FindDateFrom(ln, 0);
    var a := FindAmountFrom(ln, 0);
    if d.Some? && a.Some? then
      Some(Candidate(DateToken(ln, d.value), desc, AmountToken(ln[a.value..])))
    else None
  }

  /** The line without its dates and amounts, stripped; or else the next line, or "" after the last line. */
  function Description(lines: seq<string>, i: nat): string
    requires i < |lines|
  {
    var rest := Strip(RemoveAmountsFrom(RemoveDatesFrom(lines[i], 0), 0));
    if rest != "" then rest else if i + 1 < |lines| then lines[i + 1] else ""
  }

  /** The `dd-mm-yyyy` text of a date match. */
  function DateToken(s: string, i: nat): (t: string)
    requires DmyAt(s, i)
    ensures DmyToken(t)
    ensures i + 10 <= |s| && t == s[i..i + 10]
  {
    s[i..i + 10]
  }

  /** The text of an amount match at the front of t. */
  function AmountToken(t: string): (tok: string)
    requires AmountAt(t).Some?
    ensures AmountAt(tok) == Some(|tok|)
    ensures |tok| == AmountAt(t).value && tok <= t
  {
    var n := AmountAt(t).value;
    AmountPrefixMatches(t);
    t[..n]
  }

  /** `_iter_tx_candidates(lines)` from line i on: at most one candidate per line, in line order. */
  function CandidatesFrom(lines: seq<string>, i: nat): (r: seq<Candidate>)
    requires i <= |lines|
    ensures |r| <= |lines| - i
    ensures forall k :: 0 <= k < |r| ==> TokenShaped(r[k])
    decreases |lines| - i
  {
    if i == |lines| then []
    else match CandidateAt(lines, i)
      case Some(c) =>
        var rest := CandidatesFrom(lines, i + 1);
        assert forall k :: 0 < k <= |rest| ==> ([c] + rest)[k] == rest[k - 1];
        [c] + rest
      case None => CandidatesFrom(lines, i + 1)
  }

  function Candidates(lines: seq<string>): (r: seq<Candidate>)
    ensures |r| <= |lines|
    ensures forall k :: 0 <= k < |r| ==> TokenShaped(r[k])
  {
    CandidatesFrom(lines, 0)
  }

  /** What each line yields: a candidate or nothing. */
  function Yields(lines: seq<string>): (ys: seq<Option<Candidate>>)
    ensures |ys| == |lines| && forall j :: 0 <= j < |lines| ==> ys[j] == CandidateAt(lines, j)
  {
    seq(|lines|, j requires 0 <= j < |lines| => CandidateAt(lines, j))
  }

  /**
   * The positions, from i on, that yield something: every such position
   * exactly once, in increasing order.
   */
  function SomeIndices(ys: seq<Option<Candidate>>, i: nat): (idx: seq<nat>)
    requires i <= |ys|
    ensures forall k :: 0 <= k < |idx| ==> i <= idx[k] < |ys|
    decreases |ys| - i
  {
    if i == |ys| then []
    else
      var rest := SomeIndices(ys, i + 1);
      if ys[i].Some? then [i] + rest else rest
  }

  /** The positions listed are exactly those from i on that hold a value, each once, in increasing order. */
  lemma {:induction false} SomeIndicesExact(ys: seq<Option<Candidate>>, i: nat)
    requires i <= |ys|
    ensures var idx := SomeIndices(ys, i);
      && (forall k :: 0 <= k < |idx| ==> i <= idx[k] < |ys| && ys[idx[k]].Some?)
      && (forall k, l :: 0 <= k < l < |idx| ==> idx[k] < idx[l])
      && (forall j :: i <= j < |ys| && ys[j].Some? ==> j in idx)
    decreases |ys| - i
  {
    if i < |ys| {
      SomeIndicesExact(ys, i + 1);
      var rest := SomeIndices(ys, i + 1);
      if ys[i].Some? {
        var idx := [i] + rest;
        assert SomeIndices(ys, i) == idx;
        assert forall k :: 0 < k < |idx| ==> idx[k] == rest[k - 1];
      }
    }
  }

  /** The present values of ys from position i on, in order. */
  function Somes(ys: seq<Option<Candidate>>, i: nat): seq<Candidate>
    requires i <= |ys|
    decreases |ys| - i
  {
    if i == |ys| then []
    else (if ys[i].Some? then [ys[i].value] else []) + Somes(ys, i + 1)
  }

  /** The present values are, position by position, the values at the positions that have one. */
  lemma {:induction false} SomesAtIndices(ys: seq<Option<Candidate>>, i: nat)
    requires i <= |ys|
    ensures |Somes(ys, i)| == |SomeIndices(ys, i)|
    ensures forall k :: 0 <= k < |SomeIndices(ys, i)| ==> ys[SomeIndices(ys, i)[k]] == Some(Somes(ys, i)[k])
    decreases |ys| - i
  {
    if i < |ys| {
      SomesAtIndices(ys, i + 1);
      var r := Somes(ys, i + 1);
      var idx := SomeIndices(ys, i + 1);
      if ys[i].Some? {
        var c := ys[i].value;
        assert Somes(ys, i) == [c] + r;
        assert SomeIndices(ys, i) == [i] + idx;
        forall k | 0 < k < |idx| + 1
          ensures ys[([i] + idx)[k]] == Some(([c] + r)[k])
        {
          assert ([i] + idx)[k] == idx[k - 1];
          assert ([c] + r)[k] == r[k - 1];
        }
      } else {
        assert Somes(ys, i) == r;
      }
    }
  }

  /** `_iter_tx_candidates` keeps what each line yields, dropping the lines that yield nothing. */
  lemma {:induction false} CandidatesFromSomes(lines: seq<string>, i: nat)
    requires i <= |lines|
    ensures CandidatesFrom(lines, i) == Somes(Yields(lines), i)
    decreases |lines| - i
  {
    if i < |lines| {
      CandidatesFromSomes(lines, i + 1);
      var c := CandidateAt(lines, i);
      assert Yields(lines)[i] == c;
      if c.None? {
        assert CandidatesFrom(lines, i) == CandidatesFrom(lines, i + 1);
      }
    }
  }

  /**
   * `Candidates` lists, in line order, the candidates of exactly the lines
   * that yield one (SomeIndicesExact: each such line once, increasing).
   */
  lemma CandidatesInLineOrder(lines: seq<string>)
    ensures |Candidates(lines)| == |SomeIndices(Yields(lines), 0)|
    ensures forall k :: 0 <= k < |Candidates(lines)| ==>
      CandidateAt(lines, SomeIndices(Yields(lines), 0)[k]) == Some(Candidates(lines)[k])
  {
    CandidatesFromSomes(lines, 0);
    SomesAtIndices(Yields(lines), 0);
  }

  // ---------------------------------------------------------------------------
  // One candidate row

  /** The direction hint: "Af" exactly when the amount token holds a '-'. */
  function Hint(amount: string): (r: string)
    ensures r == "Af" || r == "Bij"
    ensures Trimmed(r) && (IsAf(r) <==> '-' in Strip(amount))
  {
    assert Lower("Af") == "af" && Lower("Bij") != "af";
    if '-' in Strip(amount) then "Af" else "Bij"
  }

  /** The amount without its '-' signs, signed by the hint. */
  function PdfCents(amount: string): (r: Result<int, RowError>)
    ensures r.Success? && '-' in Strip(amount) ==> r.value <= 0
    ensures r.Success? && '-' !in Strip(amount) ==> r.value >= 0
    ensures r.Failure? ==> r.error == BadAmount(Without(amount, {'-'}))
    ensures r.Success? <==> DecimalCents(FloatLiteral(Without(amount, {'-'}))).Some?
    ensures r.Success? ==> Abs(r.value) == Abs(DecimalCents(FloatLiteral(Without(amount, {'-'}))).value)
  {
    ParseEuAmountToCents(Without(amount, {'-'}), Hint(amount))
  }

  /** The direction the hint gives: DEBIT exactly when the amount holds a '-'. */
  function PdfDirection(amount: string): (dc: string)
    ensures dc == "DEBIT" || dc == "CREDIT"
    ensures dc == "DEBIT" <==> '-' in Strip(amount)
  {
    DirectionOf(Hint(amount))
  }

  /**
   * The body of the row loop: the date through `strptime("%d-%m-%Y")` and
   * `isoformat()`, the amount parsed without its '-' under the hint. The
   * value date is always None and the fingerprint's counterparty is "".
   * Every candidate's date is a `dd-mm-yyyy` token (the date regex's shape),
   * so the `BadDate` branch for other shapes is never reached from the
   * scanner; `strptime` would also accept one-digit fields there, which this
   * branch does not model.
   */
  function PdfPlan(c: Candidate, accountId: nat): (r: Plan)
    ensures !DmyToken(c.date) ==> r == Failure(BadDate(c.date))
    ensures DmyToken(c.date) && !ValidDate(YearOf(c.date), MonthOf(c.date), DayOf(c.date)) ==> r == Failure(BadDate(c.date))
    ensures DmyToken(c.date) ==>
      (r.Success? <==> ValidDate(YearOf(c.date), MonthOf(c.date), DayOf(c.date)) && PdfCents(c.amount).Success?)
    ensures r.Success? ==> PdfCents(c.amount) == Success(r.value.amountCents)
    ensures r.Success? ==> r.value.description == c.description && r.value.normalizedDescription == NormalizeDescription(c.description)
    ensures r.Success? ==> SignAgrees(r.value) && (r.value.debitCredit == "DEBIT" <==> '-' in Strip(c.amount))
    ensures r.Success? ==> IsoShaped(r.value.bookingDate) && IsoToDmy(r.value.bookingDate) == c.date
    ensures r.Success? ==> r.value.account == Fixed(accountId) && r.value.valueDate.None?
    ensures r.Success? ==> r.value.counterpartyRef == "" && r.value.counterpartyName.None? && r.value.counterpartyIban.None?
  {
    if !DmyToken(c.date) then Failure(BadDate(c.date))
    else
      var bookingIso :- DmyToIso(c.date);
      var amountCents :- PdfCents(c.amount);
      Success(Pending(
        Fixed(accountId), bookingIso, None, amountCents, PdfDirection(c.amount), None, None, "",
        c.description, NormalizeDescription(c.description)))
  }

  function PdfPlans(cands: seq<Candidate>, accountId: nat): (plans: seq<Plan>)
    ensures |plans| == |cands|
  {
    seq(|cands|, i requires 0 <= i < |cands| => PdfPlan(cands[i], accountId))
  }

  // ---------------------------------------------------------------------------
  // The account of a PDF

  const UnknownPdf := "UNKNOWN_PDF"

  /** The account a PDF's rows go to: its IBAN, or the shared unknown-PDF bucket. */
  function PdfAccountKey(iban: Option<string>): (a: Account)
    ensures a.institution == Institution
    ensures iban.Some? ==> a.iban == iban && a.accountNo.None?
    ensures iban.None? ==> a.iban.None? && a.accountNo == Some(UnknownPdf)
  {
    match iban
    case Some(x) => Account(Institution, Some(x), None)
    case None => Account(Institution, None, Some(UnknownPdf))
  }

  /**
   * `INSERT OR IGNORE` of the key, then `SELECT id ... IS ?` of the first
   * matching row. One key column is always NULL, so the insert always adds a
   * row; the id is the first row with that key, which a later PDF with the
   * same key gets again.
   */
  function PdfAccount(accounts: seq<Account>, iban: Option<string>): (r: (seq<Account>, nat))
    ensures r.0 == accounts + [PdfAccountKey(iban)]
    ensures FindAccount(r.0, PdfAccountKey(iban)) == Some(r.1)
    ensures FindAccount(accounts, PdfAccountKey(iban)).Some? ==> r.1 == FindAccount(accounts, PdfAccountKey(iban)).value
    ensures FindAccount(accounts, PdfAccountKey(iban)).None? ==> r.1 == |accounts| + 1
  {
    var key := PdfAccountKey(iban);
    var accounts' := accounts + [key];
    match FindAccount(accounts, key)
    case Some(id) =>
      FirstMatchExtend(accounts, [key], (a: Account) => a == key);
      (accounts', id)
    case None =>
      FirstMatchAppendHit(accounts, key, (a: Account) => a == key);
      (accounts', |accounts| + 1)
  }

  /** Two PDFs with the same IBAN (or both without one) get the same account id. */
  lemma {:induction false} PdfAccountStable(accounts: seq<Account>, iban: Option<string>)
    ensures var (accounts1, id1) := PdfAccount(accounts, iban);
      PdfAccount(accounts1, iban).1 == id1
  {
  }

  // ---------------------------------------------------------------------------
  // One run

  /** What reading the PDF gives: the page texts, a missing library, or an error. */
  datatype PdfLoad = LibraryMissing | Unreadable | Pages(texts: seq<string>)

  function PdfStart(db: Db, path: string, sha: string): (Run, nat) {
    RegisterDocument(db, Document(path, sha, "pdf", None))
  }

  /** `ingest_pdf_generic` on a database value: the new database and the returned stats. */
  function IngestPdfSpec(db: Db, path: string, sha: string, load: PdfLoad): Run {
    var (start, docId) := PdfStart(db, path, sha);
    match load
    case LibraryMissing =>
      Run(start.db.(events := start.db.events + [ParseEvent(docId, "parse", false, ParserMissing(Pdf))]), start.stats)
    case Unreadable =>
      Run(start.db.(events := start.db.events + [ParseEvent(docId, "parse", false, ReadFailed)]), start.stats)
    case Pages(texts) =>
      var fullText := Join('\n', texts);
      var (accounts, accountId) := PdfAccount(start.db.accounts, GuessAccountIban(fullText));
      var r0 := Run(start.db.(accounts := accounts), start.stats);
      Finish(ApplyPlans(r0, docId, Pdf, PdfPlans(Candidates(ExtractLines(fullText)), accountId)), docId, Pdf)
  }

  /** The document step of `ingest_pdf_generic`. */
  method StartPdf(store: Store, path: string, sha: string) returns (docId: nat, stats: Stats)
    modifies store
    ensures (Run(store.State(), stats), docId) == PdfStart(old(store.State()), path, sha)
  {
    stats := Stats(0, 0, 0);
    var found := FindDocument(store.documents, sha);
    if found.Some? {
      docId := found.value;
    } else {
      docId := store.InsertDocument(Document(path, sha, "pdf", None));
      stats := stats.(docsNew := stats.docsNew + 1);
    }
  }

  /** The account step: insert the key (or ignore it), then select the first matching id. */
  method EnsurePdfAccount(store: Store, iban: Option<string>) returns (accountId: nat)
    modifies store
    ensures (store.accounts, accountId) == PdfAccount(old(store.accounts), iban)
    ensures store.State() == old(store.State()).(accounts := store.accounts)
  {
    var key := PdfAccountKey(iban);
    store.InsertAccountOrIgnore(key);
    ghost var expected := PdfAccount(old(store.accounts), iban);
    assert FindAccount(store.accounts, key) == Some(expected.1);
    accountId := FindAccount(store.accounts, key).value;
  }

  /** The row loop of `ingest_pdf_generic`, one iteration per candidate. */
  method PdfRows(store: Store, docId: nat, cands: seq<Candidate>, accountId: nat, stats: Stats) returns (next: Stats)
    modifies store
    ensures Run(store.State(), next) == ApplyPlans(Run(old(store.State()), stats), docId, Pdf, PdfPlans(cands, accountId))
  {
    ghost var start := Run(store.State(), stats);
    ghost var plans := PdfPlans(cands, accountId);
    next := stats;
    var i := 0;
    while i < |cands|
      invariant 0 <= i <= |cands|
      invariant Run(store.State(), next) == ApplyPlans(start, docId, Pdf, plans[..i])
    {
      ApplyPlansStep(start, docId, Pdf, plans, i);
      next := store.ApplyRow(docId, Pdf, PdfPlan(cands[i], accountId), next);
      i := i + 1;
    }
    assert plans[..|cands|] == plans;
  }

  /** `ingest_pdf_generic(conn, pdf_path)`, with the file's digest and extracted page texts as inputs. */
  method IngestPdfGeneric(store: Store, path: string, sha: string, load: PdfLoad) returns (stats: Stats)
    modifies store
    ensures Run(store.State(), stats) == IngestPdfSpec(old(store.State()), path, sha, load)
  {
    var docId;
    docId, stats := StartPdf(store, path, sha);
    match load {
      case LibraryMissing =>
        store.InsertEvent(ParseEvent(docId, "parse", false, ParserMissing(Pdf)));
      case Unreadable =>
        store.InsertEvent(ParseEvent(docId, "parse", false, ReadFailed));
      case Pages(texts) =>
        var fullText := Join('\n', texts);
        var lines := ExtractLines(fullText);
        var accountId := EnsurePdfAccount(store, GuessAccountIban(fullText));
        stats := PdfRows(store, docId, Candidates(lines), accountId, stats);
        store.InsertEvent(ParseEvent(docId, "parse", true, Summary(Pdf, stats.txSeen, stats.txNew)));
    }
  }

  // ---------------------------------------------------------------------------
  // What one run guarantees

  /**
   * Without pdfplumber, or when the file cannot be read, the run logs exactly
   * one ok=0 event and adds no account and no transaction.
   */
  lemma {:induction false} IngestPdfNotRead(db: Db, path: string, sha: string, load: PdfLoad)
    requires !load.Pages?
    ensures var r := IngestPdfSpec(db, path, sha, load);
      var docId := PdfStart(db, path, sha).1;
      && r.stats.txSeen == 0 && r.stats.txNew == 0
      && r.db.txns == db.txns && r.db.accounts == db.accounts
      && |r.db.events| == |db.events| + 1
      && r.db.events[|db.events|].documentId == docId && !r.db.events[|db.events|].ok
  {
  }

  /**
   * A read PDF adds exactly one account row (the key is never a uniqueness
   * conflict), counts one row per candidate, counts as new only the rows it
   * inserted, and logs the failing rows and one summary.
   */
  lemma {:induction false} IngestPdfCounts(db: Db, path: string, sha: string, texts: seq<string>)
    ensures var r := IngestPdfSpec(db, path, sha, Pages(texts));
      var docId := PdfStart(db, path, sha).1;
      var fullText := Join('\n', texts);
      var cands := Candidates(ExtractLines(fullText));
      var (_, accountId) := PdfAccount(db.accounts, GuessAccountIban(fullText));
      && r.stats.docsNew == (if FindDocument(db.documents, sha).None? then 1 else 0)
      && r.stats.txSeen == |cands|
      && r.stats.txNew <= r.stats.txSeen
      && db.txns <= r.db.txns
      && |r.db.txns| == |db.txns| + r.stats.txNew
      && r.db.accounts == db.accounts + [PdfAccountKey(GuessAccountIban(fullText))]
      && r.db.events == db.events + FailureEvents(docId, Pdf, PdfPlans(cands, accountId))
                          + [ParseEvent(docId, "parse", true, Summary(Pdf, |cands|, r.stats.txNew))]
  {
    var (start, docId) := PdfStart(db, path, sha);
    var fullText := Join('\n', texts);
    var (accounts, accountId) := PdfAccount(start.db.accounts, GuessAccountIban(fullText));
    var r0 := Run(start.db.(accounts := accounts), start.stats);
    var plans := PdfPlans(Candidates(ExtractLines(fullText)), accountId);
    ApplyPlansEffect(r0, docId, Pdf, plans);
    CandidatesAccountOnly(r0, docId, plans);
    var a := ApplyPlans(r0, docId, Pdf, plans);
    assert IngestPdfSpec(db, path, sha, Pages(texts)) == Finish(a, docId, Pdf);
    assert a.stats.txSeen == |plans| && |plans| == |Candidates(ExtractLines(fullText))|;
  }

  /** PDF rows name their account by id, so the row loop adds no account. */
  lemma {:induction false} CandidatesAccountOnly(r: Run, docId: nat, plans: seq<Plan>)
    requires forall k :: 0 <= k < |plans| && plans[k].Success? ==> plans[k].value.account.Fixed?
    ensures ApplyPlans(r, docId, Pdf, plans).db.accounts == r.db.accounts
    decreases |plans|
  {
    if plans != [] {
      var init := plans[..|plans| - 1];
      forall k | 0 <= k < |init| && init[k].Success? ensures init[k].value.account.Fixed? {
        assert init[k] == plans[k];
      }
      CandidatesAccountOnly(r, docId, init);
    }
  }

  /**
   * Importing the same PDF a second time reuses the document and the account
   * id and inserts no transaction (it does add another row for the account
   * key, which the id lookup never returns).
   */
  lemma {:induction false} IngestPdfTwice(db: Db, path: string, path2: string, sha: string, texts: seq<string>)
    ensures var r1 := IngestPdfSpec(db, path, sha, Pages(texts));
      var r2 := IngestPdfSpec(r1.db, path2, sha, Pages(texts));
      var cands := Candidates(ExtractLines(Join('\n', texts)));
      && r2.stats == Stats(0, |cands|, 0)
      && r2.db.documents == r1.db.documents
      && r2.db.txns == r1.db.txns
  {
    var fullText := Join('\n', texts);
    var iban := GuessAccountIban(fullText);
    var cands := Candidates(ExtractLines(fullText));
    var (start1, docId1) := PdfStart(db, path, sha);
    var (accounts1, id1) := PdfAccount(start1.db.accounts, iban);
    var r01 := Run(start1.db.(accounts := accounts1), start1.stats);
    var plans := PdfPlans(cands, id1);
    ApplyPlansEffect(r01, docId1, Pdf, plans);
    var r1 := IngestPdfSpec(db, path, sha, Pages(texts));
    assert FindDocument(r1.db.documents, sha).Some?;
    var (start2, docId2) := PdfStart(r1.db, path2, sha);
    assert start2.stats == Stats(0, 0, 0);
    var (accounts2, id2) := PdfAccount(start2.db.accounts, iban);
    assert FindAccount(start2.db.accounts, PdfAccountKey(iban)).Some?;
    FirstMatchExtend(accounts1, r1.db.accounts[|accounts1|..], (a: Account) => a == PdfAccountKey(iban));
    assert id2 == id1;
    var r02 := Run(start2.db.(accounts := accounts2), start2.stats);
    ReapplyInsertsNothing(r01, r02, docId1, docId2, Pdf, plans);
    ApplyPlansEffect(r02, docId2, Pdf, plans);
  }
}
