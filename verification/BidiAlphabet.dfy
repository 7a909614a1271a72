/** The pseudo alphabet: the table that gives every character its class. */
module BidiAlphabet {
  import opened BidiClasses

  /** A row of the table, indexed by the last four bits of the character. */
  function Column(k: int, c0: Cls, c1: Cls, c2: Cls, c3: Cls, c4: Cls, c5: Cls, c6: Cls, c7: Cls,
                  c8: Cls, c9: Cls, ca: Cls, cb: Cls, cc: Cls, cd: Cls, ce: Cls, cf: Cls): Cls
    requires 0 <= k < 16
  {
    match k
    case 0 => c0 case 1 => c1 case 2 => c2 case 3 => c3 case 4 => c4 case 5 => c5 case 6 => c6 case 7 => c7
    case 8 => c8 case 9 => c9 case 10 => ca case 11 => cb case 12 => cc case 13 => cd case 14 => ce case _ => cf
  }

  function TypesFromChar(row: int, k: int): Cls
    requires 0 <= row < 8 && 0 <= k < 16
  {
    match row
    case 0 => Column(k, BN, BN, BN, BN, L, R, BN, BN, BN, S, B, S, WS, B, BN, BN)
    case 1 => Column(k, LRO, LRE, PDF, RLO, RLE, WS, L, R, BN, BN, BN, BN, B, B, B, S)
    case 2 => Column(k, WS, ON, ON, ET, ET, ET, ON, ON, ON, ON, ON, ET, CS, ET, CS, ES)
    case 3 => Column(k, EN, EN, EN, EN, EN, EN, AN, AN, AN, AN, CS, ON, ON, ON, ON, ON)
    case 4 => Column(k, ON, AL, AL, AL, AL, AL, AL, R, R, R, R, R, R, R, R, R)
    case 5 => Column(k, R, R, R, R, R, R, R, R, R, R, R, LRE, ON, RLE, PDF, S)
    case 6 => Column(k, NSM, L, L, L, L, L, L, L, L, L, L, L, L, L, L, L)
    case _ => Column(k, L, L, L, L, L, L, L, L, L, L, L, LRO, B, RLO, BN, ON)
  }

  /** The class of a character, which looks at its last seven bits only. */
  function ClassFromChWS(ch: char): Cls {
    TypesFromChar(ch as int % 128 / 16, ch as int % 16)
  }

  lemma ClassAt(ch: char)
    requires ch as int < 128
    ensures var row, k := ch as int / 16, ch as int % 16;
            0 <= row < 8 && (16 * row + k) as char == ch && ClassFromChWS(ch) == TypesFromChar(row, k)
  {
    hide TypesFromChar;
  }

  lemma LegendAtText(row: int, k: int)
    requires 0 <= row < 8 && 0 <= k < 16
    ensures var n, ch, c := 16 * row + k, (16 * row + k) as char, TypesFromChar(row, k);
            && (c == L <==> n == 0x4 || n == 0x16 || 'a' <= ch <= 'z')
            && (c == R <==> n == 0x5 || n == 0x17 || 'G' <= ch <= 'Z')
            && (c == AL <==> 'A' <= ch <= 'F')
            && (c == NSM <==> ch == '`')
  {}

  /** The table gives the letters of the legend their classes, and no other characters; so it does for the
      numbers, the codes and the spaces. */
  lemma LegendOfText(ch: char)
    requires ch as int < 128
    ensures var n, c := ch as int, ClassFromChWS(ch);
            && (c == L <==> n == 0x4 || n == 0x16 || 'a' <= ch <= 'z')
            && (c == R <==> n == 0x5 || n == 0x17 || 'G' <= ch <= 'Z')
            && (c == AL <==> 'A' <= ch <= 'F')
            && (c == NSM <==> ch == '`')
  {
    hide TypesFromChar, ClassFromChWS;
    ClassAt(ch);
    LegendAtText(ch as int / 16, ch as int % 16);
  }

  lemma LegendAtNumbers(row: int, k: int)
    requires 0 <= row < 8 && 0 <= k < 16
    ensures var n, ch, c := 16 * row + k, (16 * row + k) as char, TypesFromChar(row, k);
            && (c == EN <==> '0' <= ch <= '5') && (c == AN <==> '6' <= ch <= '9')
            && (c == ES <==> ch == '/') && (c == CS <==> ch == ',' || ch == '.' || ch == ':')
            && (c == ET <==> ch == '#' || ch == '$' || ch == '%' || ch == '+' || ch == '-')
  {}

  lemma LegendOfNumbers(ch: char)
    requires ch as int < 128
    ensures var c := ClassFromChWS(ch);
            && (c == EN <==> '0' <= ch <= '5') && (c == AN <==> '6' <= ch <= '9')
            && (c == ES <==> ch == '/') && (c == CS <==> ch == ',' || ch == '.' || ch == ':')
            && (c == ET <==> ch == '#' || ch == '$' || ch == '%' || ch == '+' || ch == '-')
  {
    hide TypesFromChar, ClassFromChWS;
    ClassAt(ch);
    LegendAtNumbers(ch as int / 16, ch as int % 16);
  }

  lemma LegendAtCodes(row: int, k: int)
    requires 0 <= row < 8 && 0 <= k < 16
    ensures var n, ch, c := 16 * row + k, (16 * row + k) as char, TypesFromChar(row, k);
            && (c == LRO <==> n == 0x10 || ch == '{') && (c == LRE <==> n == 0x11 || ch == '[')
            && (c == RLO <==> n == 0x13 || ch == '}') && (c == RLE <==> n == 0x14 || ch == ']')
            && (c == PDF <==> n == 0x12 || ch == '^')
  {}

  lemma LegendOfCodes(ch: char)
    requires ch as int < 128
    ensures var n, c := ch as int, ClassFromChWS(ch);
            && (c == LRO <==> n == 0x10 || ch == '{') && (c == LRE <==> n == 0x11 || ch == '[')
            && (c == RLO <==> n == 0x13 || ch == '}') && (c == RLE <==> n == 0x14 || ch == ']')
            && (c == PDF <==> n == 0x12 || ch == '^')
  {
    hide TypesFromChar, ClassFromChWS;
    ClassAt(ch);
    LegendAtCodes(ch as int / 16, ch as int % 16);
  }

  lemma LegendAtSpaces(row: int, k: int)
    requires 0 <= row < 8 && 0 <= k < 16
    ensures var n, ch, c := 16 * row + k, (16 * row + k) as char, TypesFromChar(row, k);
            && (c == S <==> n == 0x9 || n == 0xb || n == 0x1f || ch == '_')
            && (c == WS <==> n == 0xc || n == 0x15 || ch == ' ')
            && (c == B <==> n == 0xa || n == 0xd || 0x1c <= n <= 0x1e || ch == '|')
            && (c == BN <==> n <= 0x3 || 0x6 <= n <= 0x8 || n == 0xe || n == 0xf || 0x18 <= n <= 0x1b || ch == '~')
  {}

  /** BNs are the control characters that the legend gives no other class, which leaves out 0x4 and 0x5, and
      '~'. */
  lemma LegendOfSpaces(ch: char)
    requires ch as int < 128
    ensures var n, c := ch as int, ClassFromChWS(ch);
            && (c == S <==> n == 0x9 || n == 0xb || n == 0x1f || ch == '_')
            && (c == WS <==> n == 0xc || n == 0x15 || ch == ' ')
            && (c == B <==> n == 0xa || n == 0xd || 0x1c <= n <= 0x1e || ch == '|')
            && (c == BN <==> n <= 0x3 || 0x6 <= n <= 0x8 || n == 0xe || n == 0xf || 0x18 <= n <= 0x1b || ch == '~')
  {
    hide TypesFromChar, ClassFromChWS;
    ClassAt(ch);
    LegendAtSpaces(ch as int / 16, ch as int % 16);
  }
}
