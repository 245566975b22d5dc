/**
 * The character classes the converter's three regular expressions use, and the
 * shapes of the texts they capture.
 *
 * `\w` and `\d` are restricted to ASCII (letters, digits and `_`; `0`..`9`).
 * `\s` is the full set of code points Python counts as whitespace in a text
 * pattern, which is a short finite list.
 */
module CharClasses {

  /** `\d`, restricted to the ASCII digits. */
  predicate IsDigit(c: char)
  {
    '0' <= c <= '9'
  }

  /** `\w`, restricted to ASCII letters, ASCII digits and underscore. */
  predicate IsWordChar(c: char)
  {
    ('a' <= c <= 'z') || ('A' <= c <= 'Z') || IsDigit(c) || c == '_'
  }

  /** `\s`: tab to carriage return, the four separators 0x1C-0x1F, space, and the non-ASCII white space. */
  predicate IsSpace(c: char)
  {
    var n := c as int;
    (9 <= n <= 13) || (28 <= n <= 32) || n == 0x85 || n == 0xA0 || n == 0x1680
    || (0x2000 <= n <= 0x200A) || n == 0x2028 || n == 0x2029 || n == 0x202F
    || n == 0x205F || n == 0x3000
  }

  /** `[\d.]`: a digit or a dot. */
  predicate IsDigitOrDot(c: char)
  {
    IsDigit(c) || c == '.'
  }

  /** A character that may occur inside a test name: a word character or a hyphen. */
  predicate IsNameChar(c: char)
  {
    IsWordChar(c) || c == '-'
  }

  /** The classes a greedy run of the patterns ranges over. */
  datatype Class = Space | DigitOrDot | NameChar

  predicate In(k: Class, c: char)
  {
    match k
    case Space => IsSpace(c)
    case DigitOrDot => IsDigitOrDot(c)
    case NameChar => IsNameChar(c)
  }

  predicate AllIn(k: Class, t: string)
  {
    forall j :: 0 <= j < |t| ==> In(k, t[j])
  }

  /** A text `\w+` matches completely. */
  predicate IsWordRun(t: string)
  {
    |t| > 0 && forall j :: 0 <= j < |t| ==> IsWordChar(t[j])
  }

  /**
   * A text `[\d.]+` matches completely: any non-empty run of digits and dots,
   * so "." and "1.2.3" qualify; nothing requires a well-formed decimal.
   */
  predicate IsNumber(t: string)
  {
    |t| > 0 && AllIn(DigitOrDot, t)
  }

  /** A hyphen at position `j` of `t` follows a word character. */
  predicate HyphenAfterWord(t: string, j: nat)
    requires 0 < j < |t|
  {
    t[j] == '-' ==> IsWordChar(t[j - 1])
  }

  /**
   * A text `\w+(?:-\w+)+` matches completely: word characters and hyphens,
   * at least one hyphen, every hyphen between two word characters.
   */
  predicate IsTestName(t: string)
  {
    && |t| > 0
    && (forall j :: 0 <= j < |t| ==> IsNameChar(t[j]))
    && IsWordChar(t[0])
    && IsWordChar(t[|t| - 1])
    && (forall j :: 0 < j < |t| ==> HyphenAfterWord(t, j))
    && (exists j :: 0 <= j < |t| && t[j] == '-')
  }

  /**
   * A field Python's csv.writer never quotes: non-empty and free of the
   * delimiter, the quote character and line breaks. (An empty field in a row
   * of several is also left unquoted; this predicate does not need it.)
   */
  predicate IsPlainField(f: string)
  {
    |f| > 0 && forall j :: 0 <= j < |f| ==> f[j] != ',' && f[j] != '"' && f[j] != '\n' && f[j] != '\r'
  }

  /** The `\w+(?:-\w+)+` grammar, one direction: a word run, a hyphen, then a word run or a test name. */
  lemma TestNameJoin(w: string, rest: string)
    requires IsWordRun(w)
    requires IsWordRun(rest) || IsTestName(rest)
    ensures IsTestName(w + "-" + rest)
  {
    var t := w + "-" + rest;
    assert t[|w|] == '-';
    forall j | 0 < j < |t|
      ensures HyphenAfterWord(t, j)
    {
      if j < |w| {
        assert t[j] == w[j];
      } else if j == |w| {
        assert t[j - 1] == w[|w| - 1];
      } else if j == |w| + 1 {
        assert t[j] == rest[0];
      } else {
        var h := j - |w| - 1;
        assert t[j] == rest[h] && t[j - 1] == rest[h - 1];
        if IsTestName(rest) {
          assert HyphenAfterWord(rest, h);
        }
      }
    }
  }

  /** The `\w+(?:-\w+)+` grammar, other direction: every test name is a word run, a hyphen, and a word run or a test name. */
  lemma TestNameSplit(t: string) returns (k: nat)
    requires IsTestName(t)
    ensures 0 < k < |t| - 1 && t[k] == '-'
    ensures IsWordRun(t[..k])
    ensures IsWordRun(t[k + 1..]) || IsTestName(t[k + 1..])
  {
    k := 0;
    while t[k] != '-'
      invariant 0 <= k < |t|
      invariant forall j :: 0 <= j < k ==> IsWordChar(t[j])
      decreases |t| - k
    {
      k := k + 1;
    }
    assert k < |t| - 1;
    assert HyphenAfterWord(t, k + 1);
    var rest := t[k + 1..];
    if !IsWordRun(rest) {
      var h :| 0 <= h < |rest| && !IsWordChar(rest[h]);
      assert rest[h] == t[k + 1 + h];
      assert rest[0] == t[k + 1];
      forall g | 0 < g < |rest|
        ensures HyphenAfterWord(rest, g)
      {
        assert rest[g] == t[k + 1 + g] && rest[g - 1] == t[k + g];
        assert HyphenAfterWord(t, k + 1 + g);
      }
      assert rest[|rest| - 1] == t[|t| - 1];
      assert forall g :: 0 <= g < |rest| ==> rest[g] == t[k + 1 + g];
      assert rest[h] == '-';
      assert IsTestName(rest);
    }
  }

  lemma NumberIsPlain(t: string)
    requires IsNumber(t)
    ensures IsPlainField(t)
  {
  }

  lemma TestNameIsPlain(t: string)
    requires IsTestName(t)
    ensures IsPlainField(t)
  {
  }
}
