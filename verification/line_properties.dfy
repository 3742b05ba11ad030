/** What `parse_line` promises about one line, stated against a disassembler:
    every instruction written in its canonical form reads back as itself. */
module LineProperties {
  import opened Wrappers
  import opened Text
  import opened Code
  import opened Parser

  /** The canonical tokens of an instruction. */
  function RenderTokens(cp: CodePoint): seq<string> {
    match cp
    case Set(d, v) => ["SET", RenderLocation(d), ToDecimal(v)]
    case Cpy(d, s) => ["CPY", RenderLocation(d), RenderLocation(s)]
    case BJmp(c) => ["BJMP", RenderLocation(c)]
    case RAdd(n) => ["RADD", n]
    case RSwp(n) => ["RSWP", n]
    case Print(o) => ["PRINT", RenderOperand(o)]
    case PrintC(o) => ["PRINTC", RenderOperand(o)]
    case _ => [Mnemonic(cp)]
  }

  /** The canonical source line of an instruction: its tokens, one space apart. */
  function RenderLine(cp: CodePoint): string {
    Join(RenderTokens(cp))
  }

  /** A routine name survives `split_whitespace` only if it is a single word. */
  predicate WellNamed(cp: CodePoint) {
    match cp
    case RAdd(n) => IsWord(n)
    case RSwp(n) => IsWord(n)
    case _ => true
  }

  // ------------------------------------------------------------ tokens are words

  lemma DigitsAreWord(s: string)
    requires s != [] && AllDigits(s)
    ensures IsWord(s)
  {
    assert forall i :: 0 <= i < |s| ==> IsDigit(s[i]) && !IsWhitespace(s[i]);
  }

  lemma LocationIsWord(l: Location)
    ensures IsWord(RenderLocation(l))
  {
    var stars := Stars(l.ptrCount);
    var u := RenderUnit(l.unit);
    if l.unit.Mem? {
      DigitsAreWord(ToDecimal(l.unit.index));
      assert u == "M" + ToDecimal(l.unit.index);
      assert forall i :: 1 <= i < |u| ==> u[i] == ToDecimal(l.unit.index)[i - 1];
    }
    assert NoWhitespace(u);
    assert forall i :: 0 <= i < |stars| ==> stars[i] == '*';
    var s := stars + u;
    assert forall i :: |stars| <= i < |s| ==> s[i] == u[i - |stars|];
  }

  lemma OperandIsWord(o: Operand)
    ensures IsWord(RenderOperand(o))
  {
    match o
    case MemLoc(l) => LocationIsWord(l);
    case Value(v) => DigitsAreWord(ToDecimal(v));
  }

  lemma TokensAreWords(cp: CodePoint)
    requires WellNamed(cp)
    ensures forall i :: 0 <= i < |RenderTokens(cp)| ==> IsWord(RenderTokens(cp)[i])
  {
    var t := RenderTokens(cp);
    MnemonicIsWord(cp);
    assert t[0] == Mnemonic(cp);
    match cp
    case Set(d, v) => LocationIsWord(d); DigitsAreWord(ToDecimal(v));
    case Cpy(d, s) => LocationIsWord(d); LocationIsWord(s);
    case BJmp(c) => LocationIsWord(c);
    case Print(o) => OperandIsWord(o);
    case PrintC(o) => OperandIsWord(o);
    case _ =>
  }

  lemma MnemonicIsWord(cp: CodePoint)
    ensures IsWord(Mnemonic(cp))
  {
    var s := Mnemonic(cp);
    assert forall i :: 0 <= i < |s| ==> 'A' <= s[i] <= 'Z';
  }

  // ------------------------------------------------------------ round trip

  /** A canonical operand starts with `*`, a register or memory letter, or a
      digit: never with a backslash. */
  lemma OperandStart(o: Operand)
    ensures RenderOperand(o) != [] && RenderOperand(o)[0] != '\\'
  {
    match o
    case MemLoc(l) =>
      var stars := Stars(l.ptrCount);
      var u := RenderUnit(l.unit);
      assert u[0] in "IOM";
      assert RenderOperand(o) == stars + u;
      assert (stars + u)[0] == if stars == [] then u[0] else '*';
    case Value(v) =>
      assert IsDigit(ToDecimal(v)[0]);
  }

  /** A token that does not start with a backslash is no `PRINTC` escape. */
  lemma PrintcOrdinary(tok: string)
    requires tok != [] && tok[0] != '\\'
    ensures PrintcOperand(tok) == ParseOperand(tok)
  {
  }

  /** A canonical operand never looks like a `PRINTC` escape, so `PRINTC` reads
      it as the plain operand parser does. */
  lemma PrintcPlainOperand(o: Operand)
    ensures PrintcOperand(RenderOperand(o)) == Ok(o)
  {
    OperandStart(o);
    PrintcOrdinary(RenderOperand(o));
    OperandRoundTrip(o);
  }

  /** The tokens of every instruction parse back to it. */
  lemma TokensRoundTrip(cp: CodePoint)
    ensures ParseTokens(RenderTokens(cp)) == Ok(cp)
  {
    match cp
    case Set(d, v) => SetRoundTrip(d, v);
    case Cpy(d, s) => CpyRoundTrip(d, s);
    case BJmp(c) => BJmpRoundTrip(c);
    case Print(o) => PrintRoundTrip(o);
    case PrintC(o) => PrintcRoundTrip(o);
    case RAdd(n) => assert RenderTokens(cp) == ["RADD", n];
    case RSwp(n) => assert RenderTokens(cp) == ["RSWP", n];
    case _ => NullaryRoundTrip(cp);
  }

  lemma NullaryRoundTrip(cp: CodePoint)
    requires cp in {Add, Sub, Mul, Div, Mod, Cmp, Land, Term}
    ensures ParseTokens(RenderTokens(cp)) == Ok(cp)
  {
    assert RenderTokens(cp) == [Mnemonic(cp)];
  }

  lemma SetRoundTrip(d: Location, v: uint8)
    ensures ParseTokens(RenderTokens(Set(d, v))) == Ok(Set(d, v))
  {
    LocationRoundTrip(d);
    ParseDecimal(v, 256);
    assert ParseTokens(RenderTokens(Set(d, v))) == ParseBinary("SET", RenderLocation(d), ToDecimal(v));
  }

  lemma CpyRoundTrip(d: Location, s: Location)
    ensures ParseTokens(RenderTokens(Cpy(d, s))) == Ok(Cpy(d, s))
  {
    LocationRoundTrip(d);
    LocationRoundTrip(s);
    assert ParseTokens(RenderTokens(Cpy(d, s))) == ParseBinary("CPY", RenderLocation(d), RenderLocation(s));
  }

  lemma BJmpRoundTrip(c: Location)
    ensures ParseTokens(RenderTokens(BJmp(c))) == Ok(BJmp(c))
  {
    LocationRoundTrip(c);
    assert ParseTokens(RenderTokens(BJmp(c))) == ParseUnary("BJMP", RenderLocation(c));
  }

  lemma PrintRoundTrip(o: Operand)
    ensures ParseTokens(RenderTokens(Print(o))) == Ok(Print(o))
  {
    OperandRoundTrip(o);
    UnaryPrint(RenderOperand(o), o);
    assert ParseTokens(RenderTokens(Print(o))) == ParseUnary("PRINT", RenderOperand(o));
  }

  lemma PrintcRoundTrip(o: Operand)
    ensures ParseTokens(RenderTokens(PrintC(o))) == Ok(PrintC(o))
  {
    PrintcPlainOperand(o);
    UnaryPrintc(RenderOperand(o), o);
    assert ParseTokens(RenderTokens(PrintC(o))) == ParseUnary("PRINTC", RenderOperand(o));
  }

  lemma UnaryPrintc(tok: string, o: Operand)
    requires PrintcOperand(tok) == Ok(o)
    ensures ParseUnary("PRINTC", tok) == Ok(PrintC(o))
  {
  }

  lemma UnaryPrint(tok: string, o: Operand)
    requires ParseOperand(tok) == Ok(o)
    ensures ParseUnary("PRINT", tok) == Ok(Print(o))
  {
  }

  /** Every instruction whose routine name is a single word, written in its
      canonical form, parses back to the same instruction. */
  lemma LineRoundTrip(cp: CodePoint)
    requires WellNamed(cp)
    ensures ParseLine(RenderLine(cp)) == Ok(cp)
  {
    TokensAreWords(cp);
    LineOfWords(RenderTokens(cp));
    TokensRoundTrip(cp);
  }

  // ------------------------------------------------------------ the opcode table

  /** A line is rejected as an unknown keyword exactly when it does not start
      with an opcode followed by that opcode's number of operands. */
  lemma UnknownKeyword(line: string)
    ensures ParseLine(line) == Fail(UNKNOWN_KEYWORD) <==>
      var t := Words(line); !(|t| > 0 && Arity(t[0]) == Some(|t|))
  {
  }

  /** A `SET` whose destination reads is rejected with "Cannot parse value"
      exactly when its literal is not a `u8`. */
  lemma SetLiteral(dest: string, value: string)
    requires ParseLocation(dest).Ok?
    ensures ParseTokens(["SET", dest, value]) == Fail(BAD_VALUE) <==> ParseUnsigned(value, 256).None?
    ensures ParseUnsigned(value, 256).Some? ==>
      ParseTokens(["SET", dest, value]) == Ok(Set(ParseLocation(dest).value, ParseUnsigned(value, 256).value))
  {
  }

  /** `RADD` and `RSWP` keep the routine name exactly as written. */
  lemma RoutineNamesVerbatim(name: string)
    ensures ParseTokens(["RADD", name]) == Ok(RAdd(name))
    ensures ParseTokens(["RSWP", name]) == Ok(RSwp(name))
  {
  }

  // ------------------------------------------------------------ PRINTC escapes

  /** A line made of words separated by spaces parses as its word list. */
  lemma LineOfWords(t: seq<string>)
    requires forall i :: 0 <= i < |t| ==> IsWord(t[i])
    ensures ParseLine(Join(t)) == ParseTokens(t)
  {
    WordsOfJoin(t);
  }

  /** `PRINTC` reads the three-character tokens `\\n` and `\\s` as a newline
      and a space, and a backslash followed by one ASCII character as that
      character's code; since a token is a word, that character is never
      blank. */
  lemma PrintcEscapes(c: char)
    requires IsAscii(c)
    ensures ParseTokens(["PRINTC", ['\\', '\\', 'n']]) == Ok(PrintC(Value(10)))
    ensures ParseTokens(["PRINTC", ['\\', '\\', 's']]) == Ok(PrintC(Value(32)))
    ensures ParseTokens(["PRINTC", ['\\', c]]) == Ok(PrintC(Value(c as int)))
  {
  }
}
