/**
 * The watermark file `<journal>/.last` (ljdump.py:113-117 and 157-173):
 * line 1 is the sync cursor, line 2 the comment high-water mark.
 * Also the parts of Python's `str(int)` and `int(str)` the file relies on.
 */
module Watermark {
  import opened Wrappers
  import Text

  /** The persisted progress: the sync cursor and the greatest comment id done. */
  datatype Watermark = Watermark(lastsync: string, lastmaxid: int)

  /** What the reader ends with. */
  datatype LoadedLast =
    | Loaded(mark: Watermark)
      /** The second line is not an integer: the source keeps the text itself. */
    | UnparsableMaxId(lastsync: string, text: string)

  /** The values used when there is no usable file. */
  const Defaults := Watermark("", 0)

  // ---------------------------------------------------------------------
  // Decimal integers

  predicate IsDigit(c: char) { '0' <= c <= '9' }

  function DigitValue(c: char): nat
    requires IsDigit(c)
  {
    (c as int) - ('0' as int)
  }

  function DigitChar(d: nat): (c: char)
    requires d < 10
    ensures IsDigit(c) && DigitValue(c) == d
  {
    (('0' as int) + d) as char
  }

  /** `str(n)` for a natural number: decimal digits, no leading zero. */
  function ShowNat(n: nat): (r: string)
    ensures r != []
    ensures forall i :: 0 <= i < |r| ==> IsDigit(r[i])
    ensures |r| > 1 ==> r[0] != '0'
  {
    if n < 10 then [DigitChar(n)] else ShowNat(n / 10) + [DigitChar(n % 10)]
  }

  /** `str(n)`, and so `"%s" % n`, for any integer. */
  function ShowInt(n: int): string
  {
    if n < 0 then "-" + ShowNat(-n) else ShowNat(n)
  }

  /**
   * The digits of a Python integer literal as `int()` reads them: decimal
   * digits, where one underscore may stand between two digits.
   */
  function Digits(s: string): (r: Option<nat>)
    ensures r.Some? ==> s != [] && IsDigit(s[0]) && IsDigit(s[|s| - 1])
  {
    if s == [] || !IsDigit(s[|s| - 1]) then None
    else if |s| == 1 then Some(DigitValue(s[0]))
    else
      var init := s[..|s| - 1];
      var head := if init[|init| - 1] == '_' then init[..|init| - 1] else init;
      match Digits(head)
      case None => None
      case Some(v) => Some(10 * v + DigitValue(s[|s| - 1]))
  }

  /** The ASCII characters Python's `str.strip()` removes. */
  predicate IsSpace(c: char)
  {
    c == ' ' || 9 <= c as int <= 13 || 28 <= c as int <= 31
  }

  function StripStart(s: string): (r: string)
    ensures |r| <= |s|
    ensures r != [] ==> !IsSpace(r[0])
  {
    if s != [] && IsSpace(s[0]) then StripStart(s[1..]) else s
  }

  function StripEnd(s: string): (r: string)
    ensures |r| <= |s|
    ensures r != [] ==> !IsSpace(r[|r| - 1])
  {
    if s != [] && IsSpace(s[|s| - 1]) then StripEnd(s[..|s| - 1]) else s
  }

  /** `int(s)`: surrounding white space, an optional sign, then digits. */
  function ParseInt(s: string): (r: Option<int>)
  {
    var t := StripEnd(StripStart(s));
    if t != [] && (t[0] == '-' || t[0] == '+') then
      match Digits(t[1..])
      case None => None
      case Some(v) => Some(if t[0] == '-' then -(v as int) else v as int)
    else
      match Digits(t)
      case None => None
      case Some(v) => Some(v)
  }

  lemma {:induction false} DigitsOfShowNat(n: nat)
    ensures Digits(ShowNat(n)) == Some(n)
  {
    if n >= 10 {
      var s := ShowNat(n);
      DigitsOfShowNat(n / 10);
      assert s[..|s| - 1] == ShowNat(n / 10);
      assert s[|s| - 1] == DigitChar(n % 10);
    }
  }

  /** `int(str(n)) == n`. */
  lemma ParseShowInt(n: int)
    ensures ParseInt(ShowInt(n)) == Some(n)
  {
    var s := ShowInt(n);
    DigitsOfShowNat(if n < 0 then -n else n);
    var digits := ShowNat(if n < 0 then -n else n);
    assert s[|s| - 1] == digits[|digits| - 1];
    assert StripStart(s) == s;
    assert StripEnd(s) == s;
    if n < 0 {
      assert s[1..] == digits;
    }
  }

  // ---------------------------------------------------------------------
  // The file

  /** `writelast`: the text written to `.last`. */
  function WriteLast(lastsync: string, lastmaxid: int): string
  {
    lastsync + "\n" + ShowInt(lastmaxid) + "\n"
  }

  /**
   * The reader at ljdump.py:157-173, given the file's text or None when it
   * cannot be opened. An empty file fails on `lastsync[-1]` and keeps the
   * defaults; an empty second line reads as 0.
   */
  function ReadLast(file: Option<string>): (r: LoadedLast)
    ensures file == None || file == Some("") ==> r == Loaded(Defaults)
  {
    match file
    case None => Loaded(Defaults)
    case Some(raw) =>
      var first := Text.ReadLine(Text.UniversalNewlines(raw));
      if first.0 == "" then Loaded(Defaults)
      else
        var lastsync := Text.Chomp(first.0);
        var text := Text.Chomp(Text.ReadLine(first.1).0);
        if text == "" then Loaded(Watermark(lastsync, 0))
        else
          match ParseInt(text)
          case Some(n) => Loaded(Watermark(lastsync, n))
          case None => UnparsableMaxId(lastsync, text)
  }

  /** A cursor that is one line of text. */
  predicate IsCursor(lastsync: string)
  {
    '\n' !in lastsync && '\r' !in lastsync
  }

  /** What `writelast` writes, the reader reads back. */
  lemma {:induction false} LastRoundTrip(w: Watermark)
    requires IsCursor(w.lastsync)
    ensures ReadLast(Some(WriteLast(w.lastsync, w.lastmaxid))) == Loaded(w)
  {
    var number := ShowInt(w.lastmaxid);
    var text := WriteLast(w.lastsync, w.lastmaxid);
    assert '\r' !in number && '\n' !in number by {
      var digits := ShowNat(if w.lastmaxid < 0 then -w.lastmaxid else w.lastmaxid);
      assert forall i :: 0 <= i < |digits| ==> IsDigit(digits[i]);
    }
    assert '\r' !in text;
    Text.UniversalNewlinesKeepsPlainText(text);
    Text.ReadLineOfLine(w.lastsync, number + "\n");
    assert text == w.lastsync + "\n" + (number + "\n");
    Text.ReadLineOfLine(number, "");
    assert number + "\n" + "" == number + "\n";
    ParseShowInt(w.lastmaxid);
  }

  /** A file holding only the cursor line reads the high-water mark as 0. */
  lemma {:induction false} MissingMaxIdReadsZero(lastsync: string)
    requires IsCursor(lastsync)
    ensures ReadLast(Some(lastsync + "\n")) == Loaded(Watermark(lastsync, 0))
    ensures ReadLast(Some(lastsync + "\n\n")) == Loaded(Watermark(lastsync, 0))
  {
    Text.UniversalNewlinesKeepsPlainText(lastsync + "\n");
    Text.UniversalNewlinesKeepsPlainText(lastsync + "\n\n");
    Text.ReadLineOfLine(lastsync, "");
    assert lastsync + "\n" + "" == lastsync + "\n";
    Text.ReadLineOfLine(lastsync, "\n");
    assert lastsync + "\n" + "\n" == lastsync + "\n\n";
    assert Text.ReadLine("\n") == ("\n", "");
  }
}
