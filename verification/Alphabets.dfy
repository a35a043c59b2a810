/**
 The alphabets behind the character tests of the other modules, written out letter by letter: which letters folding
 takes for one, where words begin, and which characters identifiers and texts may hold.
 */
module Alphabets {
  import opened Foundation
  import ApplicationSearch
  import DesktopExec
  import Notifications
  import Utf8

  predicate IsLetter(c: char) {
    c in {
      'A', 'B', 'C', 'D', 'E', 'F', 'G', 'H', 'I', 'J', 'K', 'L', 'M', 'N', 'O', 'P', 'Q', 'R', 'S', 'T', 'U',
      'V', 'W', 'X', 'Y', 'Z', 'a', 'b', 'c', 'd', 'e', 'f', 'g', 'h', 'i', 'j', 'k', 'l', 'm', 'n', 'o', 'p',
      'q', 'r', 's', 't', 'u', 'v', 'w', 'x', 'y', 'z'}
  }

  predicate IsDigit(c: char) {
    c in {'0', '1', '2', '3', '4', '5', '6', '7', '8', '9'}
  }

  /** The lower case of a capital letter; any other character is left alone. */
  function LowerOf(c: char): char {
    match c
    case 'A' => 'a'
    case 'B' => 'b'
    case 'C' => 'c'
    case 'D' => 'd'
    case 'E' => 'e'
    case 'F' => 'f'
    case 'G' => 'g'
    case 'H' => 'h'
    case 'I' => 'i'
    case 'J' => 'j'
    case 'K' => 'k'
    case 'L' => 'l'
    case 'M' => 'm'
    case 'N' => 'n'
    case 'O' => 'o'
    case 'P' => 'p'
    case 'Q' => 'q'
    case 'R' => 'r'
    case 'S' => 's'
    case 'T' => 't'
    case 'U' => 'u'
    case 'V' => 'v'
    case 'W' => 'w'
    case 'X' => 'x'
    case 'Y' => 'y'
    case 'Z' => 'z'
    case _ => c
  }

  /** The same letter, but perhaps in the other case. */
  predicate SameLetter(a: char, b: char) {
    a == b || LowerOf(a) == b || LowerOf(b) == a
  }

  lemma {:induction false} FoldedAlike(a: char, b: char)
    ensures ApplicationSearch.FoldChar(a) == ApplicationSearch.FoldChar(b) <==> SameLetter(a, b)
  {
    FoldedIsLower(a);
    FoldedIsLower(b);
  }

  lemma {:induction false} FoldedIsLower(c: char)
    ensures ApplicationSearch.FoldChar(c) == LowerOf(c) == LowerOf(LowerOf(c))
  {
  }

  /** Two texts fold alike exactly when they differ in nothing but the case of letters. */
  lemma {:induction false} FoldingIgnoresCase(a: string, b: string)
    ensures ApplicationSearch.FoldAscii(a) == ApplicationSearch.FoldAscii(b)
        <==> |a| == |b| && forall i :: 0 <= i < |a| ==> SameLetter(a[i], b[i])
  {
    var x, y := ApplicationSearch.FoldAscii(a), ApplicationSearch.FoldAscii(b);
    forall i | 0 <= i < |a| && i < |b| ensures x[i] == y[i] <==> SameLetter(a[i], b[i]) {
      FoldedAlike(a[i], b[i]);
    }
    hide SameLetter, ApplicationSearch.FoldChar;
    if |a| == |b| && forall i :: 0 <= i < |a| ==> SameLetter(a[i], b[i]) {
      assert x == y;
    }
  }

  /** The letters and digits are the codes between the first and the last of each row. */
  lemma {:induction false} RowsAreBetween(c: char)
    ensures IsLetter(c) <==> 'a' <= c <= 'z' || 'A' <= c <= 'Z'
    ensures IsDigit(c) <==> '0' <= c <= '9'
  {
    var n := c as int;
    assert c == n as char;
    if 'a' <= c <= 'z' {
      assert n == 97 || n == 98 || n == 99 || n == 100 || n == 101 || n == 102 || n == 103 || n == 104 || n == 105
        || n == 106 || n == 107 || n == 108 || n == 109 || n == 110 || n == 111 || n == 112 || n == 113 || n == 114 ||
        n == 115 || n == 116 || n == 117 || n == 118 || n == 119 || n == 120 || n == 121 || n == 122;
    } else if 'A' <= c <= 'Z' {
      assert n == 65 || n == 66 || n == 67 || n == 68 || n == 69 || n == 70 || n == 71 || n == 72 || n == 73 || n ==
        74 || n == 75 || n == 76 || n == 77 || n == 78 || n == 79 || n == 80 || n == 81 || n == 82 || n == 83 || n ==
        84 || n == 85 || n == 86 || n == 87 || n == 88 || n == 89 || n == 90;
    } else if '0' <= c <= '9' {
      assert n == 48 || n == 49 || n == 50 || n == 51 || n == 52 || n == 53 || n == 54 || n == 55 || n == 56 || n ==
        57;
    }
  }

  /** A word starts after any byte but a letter, a digit, an underscore or a byte of a longer character. */
  lemma {:induction false} WordsConsistOf(c: char)
    ensures ApplicationSearch.IsWordByte(c) <==> IsLetter(c) || IsDigit(c) || c == '_' || c as int > 127
  {
    RowsAreBetween(c);
  }

  /** Only a letter after a percent sign can be a field code. */
  lemma {:induction false} CodesAreLetters(c: char)
    ensures DesktopExec.IsAsciiLetter(c) <==> IsLetter(c)
  {
    RowsAreBetween(c);
  }

  lemma {:induction false} IdentifiersConsistOf(c: char)
    ensures Notifications.IsIdentifierCharacter(c) <==> IsLetter(c) || IsDigit(c) || c in {'.', '_', '-'}
  {
    RowsAreBetween(c);
  }

  /**
   Queries may hold tabs, line feeds, vertical tabs, form feeds and carriage returns of the control characters,
   bodies of notifications tabs and line feeds, other texts none.
   */
  lemma {:induction false} ControlsAre(c: int)
    requires c >= 0
    ensures Utf8.UnsafeInQuery(c) <==> Utf8.IsControl(c) && c !in {9, 10, 11, 12, 13}
    ensures Utf8.UnsafeInText(c, true) <==> Utf8.IsControl(c) && c !in {9, 10}
    ensures Utf8.UnsafeInText(c, false) <==> Utf8.IsControl(c)
    ensures Utf8.IsControl(c) <==> c < 32 || 127 <= c < 160
  {
  }
}
