/** The program parser of `src/parser.rs`: line sanitation, grouping of labels
    and bodies, and the opcode table that turns one line into one instruction. */
module Parser {
  import opened Wrappers
  import opened Text
  import opened Code

  const UNKNOWN_KEYWORD := "Unknown keyword"
  const BAD_VALUE := "Cannot parse value"
  const ORPHAN_CODE := "code without routine"

  /** Every message a single line can be rejected with. */
  const LINE_ERRORS := {UNKNOWN_KEYWORD, BAD_VALUE, BAD_MEMORY_INDEX, UNKNOWN_LOCATION, BAD_OPERAND}

  /** `is_comment_source`. */
  predicate IsComment(line: string) {
    |line| > 0 && line[0] == '#'
  }

  /** `is_routine_source`: a label line ends with a colon. */
  predicate IsLabel(line: string) {
    |line| > 0 && line[|line| - 1] == ':'
  }

  /** The routine a label line declares: the line without its trailing colons. */
  function RoutineName(line: string): (name: string)
    ensures |name| <= |line| && name == line[..|name|]
    ensures forall i | |name| <= i < |line| :: line[i] == ':'
    ensures name == [] || name[|name| - 1] != ':'
  {
    TrimEndChar(line, ':')
  }

  /** A line is a label exactly when dropping its trailing colons shortens it. */
  lemma LabelHasName(line: string)
    ensures IsLabel(line) <==> |RoutineName(line)| < |line|
  {
  }

  // ------------------------------------------------------------ one line

  /** The opcode table: each opcode with the exact token count of its lines. */
  function Arity(op: string): Option<nat> {
    if op in {"ADD", "SUB", "MUL", "DIV", "MOD", "CMP", "LAND", "TERM"} then Some(1)
    else if op in {"BJMP", "RADD", "RSWP", "PRINT", "PRINTC"} then Some(2)
    else if op in {"SET", "CPY"} then Some(3)
    else None
  }

  /** The opcode an instruction is written with. */
  function Mnemonic(cp: CodePoint): string {
    match cp
    case Set(_, _) => "SET"
    case Cpy(_, _) => "CPY"
    case Add => "ADD"
    case Sub => "SUB"
    case Mul => "MUL"
    case Div => "DIV"
    case Mod => "MOD"
    case Cmp => "CMP"
    case BJmp(_) => "BJMP"
    case Land => "LAND"
    case RAdd(_) => "RADD"
    case RSwp(_) => "RSWP"
    case Print(_) => "PRINT"
    case PrintC(_) => "PRINTC"
    case Term => "TERM"
  }

  /** The operand of `PRINTC`, matched on the token's UTF-8 bytes first: the
      three bytes `\\n` and `\\s` stand for newline and space, and any two-byte
      token `\c` for the byte `c`; anything else is an ordinary operand. A
      two-character token is two bytes only when its second character is ASCII. */
  function PrintcOperand(tok: string): (r: Result<Operand>)
    ensures tok == ['\\', '\\', 'n'] ==> r == Ok(Value(10))
    ensures tok == ['\\', '\\', 's'] ==> r == Ok(Value(32))
    ensures |tok| == 2 && tok[0] == '\\' && IsAscii(tok[1]) ==> r == Ok(Value(tok[1] as int))
    // every other token is an ordinary operand
    ensures (tok != ['\\', '\\', 'n'] && tok != ['\\', '\\', 's'] && !(|tok| == 2 && tok[0] == '\\' && IsAscii(tok[1])))
              ==> r == ParseOperand(tok)
  {
    if tok == ['\\', '\\', 'n'] then Ok(Value(10))
    else if tok == ['\\', '\\', 's'] then Ok(Value(32))
    else if |tok| == 2 && tok[0] == '\\' && IsAscii(tok[1]) then Ok(Value(tok[1] as int))
    else ParseOperand(tok)
  }

  /** The arms of `parse_line` for lines of one token. */
  function ParseNullary(op: string): (r: Result<CodePoint>)
    ensures r == Fail(UNKNOWN_KEYWORD) <==> Arity(op) != Some(1)
    ensures r.Ok? ==> op == Mnemonic(r.value)
    ensures r.Err? ==> r == Fail(UNKNOWN_KEYWORD)
  {
    if op == "ADD" then Ok(Add)
    else if op == "SUB" then Ok(Sub)
    else if op == "MUL" then Ok(Mul)
    else if op == "DIV" then Ok(Div)
    else if op == "MOD" then Ok(Mod)
    else if op == "CMP" then Ok(Cmp)
    else if op == "LAND" then Ok(Land)
    else if op == "TERM" then Ok(Term)
    else Fail(UNKNOWN_KEYWORD)
  }

  /** The arms of `parse_line` for lines of two tokens. */
  function ParseUnary(op: string, arg: string): (r: Result<CodePoint>)
    ensures r == Fail(UNKNOWN_KEYWORD) <==> Arity(op) != Some(2)
    ensures r.Ok? ==> op == Mnemonic(r.value)
    ensures r.Err? ==> r.failure.Panicked? || r.failure.msg in LINE_ERRORS
  {
    if op == "BJMP" then
      var cond :- ParseLocation(arg);
      Ok(BJmp(cond))
    else if op == "RADD" then Ok(RAdd(arg))
    else if op == "RSWP" then Ok(RSwp(arg))
    else if op == "PRINT" then
      var source :- ParseOperand(arg);
      Ok(Print(source))
    else if op == "PRINTC" then
      var source :- PrintcOperand(arg);
      Ok(PrintC(source))
    else Fail(UNKNOWN_KEYWORD)
  }

  /** The arms of `parse_line` for lines of three tokens. */
  function ParseBinary(op: string, a: string, b: string): (r: Result<CodePoint>)
    ensures r == Fail(UNKNOWN_KEYWORD) <==> Arity(op) != Some(3)
    ensures r.Ok? ==> op == Mnemonic(r.value)
    ensures r.Err? ==> r.failure.Panicked? || r.failure.msg in LINE_ERRORS
  {
    if op == "SET" then
      var dest :- ParseLocation(a);
      match ParseUnsigned(b, 256)
      case Some(v) => Ok(Set(dest, v))
      case None => Fail(BAD_VALUE)
    else if op == "CPY" then
      var dest :- ParseLocation(a);
      var source :- ParseLocation(b);
      Ok(Cpy(dest, source))
    else Fail(UNKNOWN_KEYWORD)
  }

  /** An accepted one-operand line holds what the operand's token parser reads:
      a location for `BJMP`, the name verbatim for `RADD` and `RSWP`, an operand
      for `PRINT`, and an operand or escape for `PRINTC`. */
  lemma UnaryOperands(op: string, arg: string)
    ensures var r := ParseUnary(op, arg);
      && (op == "BJMP" && r.Ok? ==> r == Ok(BJmp(ParseLocation(arg).value)) && ParseLocation(arg).Ok?)
      && (op == "RADD" ==> r == Ok(RAdd(arg)))
      && (op == "RSWP" ==> r == Ok(RSwp(arg)))
      && (op == "PRINT" && r.Ok? ==> ParseOperand(arg).Ok? && r == Ok(Print(ParseOperand(arg).value)))
      && (op == "PRINTC" && r.Ok? ==> PrintcOperand(arg).Ok? && r == Ok(PrintC(PrintcOperand(arg).value)))
  {
  }

  /** A one-operand line whose opcode is known fails exactly when its operand's
      parser fails, and with that parser's error. */
  lemma UnaryErrors(op: string, arg: string)
    ensures var r := ParseUnary(op, arg);
      && (op == "BJMP" ==> (r.Err? <==> ParseLocation(arg).Err?) && (r.Err? ==> r.failure == ParseLocation(arg).failure))
      && (op == "PRINT" ==> (r.Err? <==> ParseOperand(arg).Err?) && (r.Err? ==> r.failure == ParseOperand(arg).failure))
      && (op == "PRINTC" ==> (r.Err? <==> PrintcOperand(arg).Err?) && (r.Err? ==> r.failure == PrintcOperand(arg).failure))
  {
  }

  /** An accepted `SET` or `CPY` line holds what the location and literal
      parsers read from its operands. */
  lemma BinaryOperands(op: string, a: string, b: string)
    ensures var r := ParseBinary(op, a, b);
      && (op == "SET" && r.Ok? ==>
            (ParseLocation(a).Ok? && ParseUnsigned(b, 256).Some?
             && r == Ok(Set(ParseLocation(a).value, ParseUnsigned(b, 256).value))))
      && (op == "CPY" && r.Ok? ==>
            (ParseLocation(a).Ok? && ParseLocation(b).Ok?
             && r == Ok(Cpy(ParseLocation(a).value, ParseLocation(b).value))))
  {
  }

  /** `SET` and `CPY` read their operands left to right: the error is that of
      the destination when it fails, and otherwise that of the second operand
      ("Cannot parse value" for a `SET` literal). */
  lemma BinaryErrors(op: string, a: string, b: string)
    requires op in {"SET", "CPY"}
    ensures var r := ParseBinary(op, a, b);
      && (ParseLocation(a).Err? ==> r.Err? && r.failure == ParseLocation(a).failure)
      && (op == "SET" && ParseLocation(a).Ok? ==> (r.Err? <==> ParseUnsigned(b, 256).None?) && (r.Err? ==> r == Fail(BAD_VALUE)))
      && (op == "CPY" && ParseLocation(a).Ok? ==>
            ((r.Err? <==> ParseLocation(b).Err?) && (r.Err? ==> r.failure == ParseLocation(b).failure)))
  {
  }

  /** The `match` of `parse_line` over the whitespace-separated tokens; its
      slice patterns are told apart by length first. */
  function ParseTokens(t: seq<string>): (r: Result<CodePoint>)
    ensures r == Fail(UNKNOWN_KEYWORD) <==> !(|t| > 0 && Arity(t[0]) == Some(|t|))
    ensures r.Ok? ==> |t| > 0 && t[0] == Mnemonic(r.value)
    ensures r.Err? ==> r.failure.Panicked? || r.failure.msg in LINE_ERRORS
    // an accepted line's operands are what the token parsers read from its tokens
    ensures r.Ok? && r.value.Set? ==>
              |t| == 3 && ParseLocation(t[1]) == Ok(r.value.dest) && ParseUnsigned(t[2], 256) == Some(r.value.value as nat)
    ensures r.Ok? && r.value.Cpy? ==>
              |t| == 3 && ParseLocation(t[1]) == Ok(r.value.dest) && ParseLocation(t[2]) == Ok(r.value.source)
    ensures r.Ok? && r.value.BJmp? ==> |t| == 2 && ParseLocation(t[1]) == Ok(r.value.cond)
    ensures r.Ok? && (r.value.RAdd? || r.value.RSwp?) ==> |t| == 2 && r.value.name == t[1]
    ensures r.Ok? && r.value.Print? ==> |t| == 2 && ParseOperand(t[1]) == Ok(r.value.operand)
    ensures r.Ok? && r.value.PrintC? ==> |t| == 2 && PrintcOperand(t[1]) == Ok(r.value.operand)
    // any other error is that of the first operand whose parser fails
    ensures r.Err? && r != Fail(UNKNOWN_KEYWORD) ==>
              || (|t| >= 2 && t[0] in {"BJMP", "SET", "CPY"} && ParseLocation(t[1]).Err? && r == ParseLocation(t[1]).PropagateFailure())
              || (|t| == 3 && t[0] == "SET" && ParseLocation(t[1]).Ok? && ParseUnsigned(t[2], 256).None? && r == Fail(BAD_VALUE))
              || (|t| == 3 && t[0] == "CPY" && ParseLocation(t[1]).Ok? && ParseLocation(t[2]).Err? && r == ParseLocation(t[2]).PropagateFailure())
              || (|t| == 2 && t[0] == "PRINT" && ParseOperand(t[1]).Err? && r == ParseOperand(t[1]).PropagateFailure())
              || (|t| == 2 && t[0] == "PRINTC" && PrintcOperand(t[1]).Err? && r == PrintcOperand(t[1]).PropagateFailure())
  {
    if |t| == 1 then ParseNullary(t[0])
    else if |t| == 2 then
      UnaryOperands(t[0], t[1]);
      UnaryErrors(t[0], t[1]);
      ParseUnary(t[0], t[1])
    else if |t| == 3 then
      BinaryOperands(t[0], t[1], t[2]);
      if t[0] in {"SET", "CPY"} then
        BinaryErrors(t[0], t[1], t[2]);
        ParseBinary(t[0], t[1], t[2])
      else ParseBinary(t[0], t[1], t[2])
    else Fail(UNKNOWN_KEYWORD)
  }

  /** `parse_line`: the line's whitespace-separated tokens through the opcode
      table. */
  function ParseLine(line: string): (r: Result<CodePoint>)
    ensures r == Fail(UNKNOWN_KEYWORD) <==> (var t := Words(line); !(|t| > 0 && Arity(t[0]) == Some(|t|)))
    ensures r.Ok? ==> Words(line) != [] && Words(line)[0] == Mnemonic(r.value)
    ensures r.Err? ==> r.failure.Panicked? || r.failure.msg in LINE_ERRORS
  {
    ParseTokens(Words(line))
  }

  // ------------------------------------------------------------ one routine

  /** Line `i` is the first non-empty line of `lines` that `parse` rejects, with `f`. */
  predicate FailsFirstAt(lines: seq<string>, parse: string -> Result<CodePoint>, i: nat, f: Failure) {
    && i < |lines| && lines[i] != [] && parse(lines[i]) == Err(f)
    && forall j :: 0 <= j < i && lines[j] != [] ==> parse(lines[j]).Ok?
  }

  /** The loop of `parse_codeblock` for a given line parser: every non-empty
      line in order, aborting at the first line that fails. */
  function ParseEach(lines: seq<string>, parse: string -> Result<CodePoint>): Result<CodeBlock>
    decreases |lines|
  {
    if lines == [] then Ok([])
    else if lines[0] == [] then ParseEach(lines[1..], parse)
    else
      var cp :- parse(lines[0]);
      var rest :- ParseEach(lines[1..], parse);
      Ok([cp] + rest)
  }

  /** A code block parses exactly when each of its non-empty lines does; the
      instructions are then the lines' instructions one for one and in order,
      and otherwise the error is that of the first failing line. */
  lemma {:induction false} ParseEachSpec(lines: seq<string>, parse: string -> Result<CodePoint>)
    ensures var r := ParseEach(lines, parse);
      && (r.Ok? <==> forall i :: 0 <= i < |lines| && lines[i] != [] ==> parse(lines[i]).Ok?)
      && (r.Ok? && (forall i :: 0 <= i < |lines| ==> lines[i] != []) ==>
            |r.value| == |lines| && forall i :: 0 <= i < |lines| ==> parse(lines[i]) == Ok(r.value[i]))
      && (r.Err? ==> exists i: nat :: FailsFirstAt(lines, parse, i, r.failure))
    decreases |lines|
  {
    if lines != [] {
      var tail := ParseEach(lines[1..], parse);
      ParseEachSpec(lines[1..], parse);
      assert forall i :: 1 <= i < |lines| ==> lines[i] == lines[1..][i - 1];
      if tail.Err? && (lines[0] == [] || parse(lines[0]).Ok?) {
        var i: nat :| FailsFirstAt(lines[1..], parse, i, tail.failure);
        assert FailsFirstAt(lines, parse, i + 1, tail.failure);
      }
      if lines[0] != [] && parse(lines[0]).Err? {
        assert FailsFirstAt(lines, parse, 0, parse(lines[0]).failure);
      }
    }
  }

  /** `parse_codeblock`: accepted exactly when every non-empty line parses, and
      otherwise rejected with the error of the first line that does not. */
  function ParseCodeBlock(lines: seq<string>): (r: Result<CodeBlock>)
    ensures r.Ok? <==> forall i :: 0 <= i < |lines| && lines[i] != [] ==> ParseLine(lines[i]).Ok?
    ensures r.Err? ==> exists i: nat :: FailsFirstAt(lines, ParseLine, i, r.failure)
  {
    ParseEachSpec(lines, ParseLine);
    ParseEach(lines, ParseLine)
  }

  /** `Routines::parse_routine`: parse the body with `parseLine`, then add it
      under `name`. */
  function ParseRoutine(rs: Routines, name: string, lines: seq<string>, parseLine: string -> Result<CodePoint>): (u: Update)
    ensures u.status.Ok? <==> ParseEach(lines, parseLine).Ok? && name !in rs
    ensures u.status.Ok? ==> u.routines == rs[name := ParseEach(lines, parseLine).value]
    // a body that fails leaves the table alone and reports its own error
    ensures ParseEach(lines, parseLine).Err? ==>
              u.routines == rs && u.status == ParseEach(lines, parseLine).PropagateFailure()
    // a duplicate name is reported, but the new body has already replaced the old one
    ensures ParseEach(lines, parseLine).Ok? && name in rs ==>
              u.routines == rs[name := ParseEach(lines, parseLine).value] && u.status == Fail(DUPLICATE_ROUTINE)
  {
    match ParseEach(lines, parseLine)
    case Err(f) => Update(rs, Err(f))
    case Ok(block) => AddRoutine(rs, name, block)
  }

  // ------------------------------------------------------------ whole program

  /** A line as `Routines::parse` keeps it: trimmed, not blank, not a comment. */
  predicate Significant(line: string) {
    line != [] && !IsComment(line) && Trim(line) == line
  }

  /** What `Routines::parse` keeps of one line: its trimmed text, unless that
      is blank or a comment. */
  function KeepLine(line: string): seq<string> {
    var t := Trim(line);
    if t == [] || IsComment(t) then [] else [t]
  }

  /** The lines `Routines::parse` looks at: trimmed, without blanks and comments. */
  function Sanitize(lines: seq<string>): (kept: seq<string>)
    ensures |kept| <= |lines|
  {
    if lines == [] then [] else KeepLine(lines[0]) + Sanitize(lines[1..])
  }

  /** Every kept line is significant. */
  lemma {:induction false} SanitizeKeepsSignificant(lines: seq<string>)
    ensures forall i :: 0 <= i < |Sanitize(lines)| ==> Significant(Sanitize(lines)[i])
  {
    if lines != [] {
      var k := KeepLine(lines[0]);
      var rest := Sanitize(lines[1..]);
      SanitizeKeepsSignificant(lines[1..]);
      KeepLineSignificant(lines[0]);
      assert Sanitize(lines) == k + rest;
      AllOfConcat(Significant, k, rest);
    }
  }

  lemma AllOfConcat<T>(p: T -> bool, a: seq<T>, b: seq<T>)
    requires forall i :: 0 <= i < |a| ==> p(a[i])
    requires forall i :: 0 <= i < |b| ==> p(b[i])
    ensures forall i :: 0 <= i < |a + b| ==> p((a + b)[i])
  {
    forall i | 0 <= i < |a + b|
      ensures p((a + b)[i])
    {
      if i >= |a| {
        assert (a + b)[i] == b[i - |a|];
      }
    }
  }

  /** One line is kept exactly when its trimmed text is significant, and
      then what is kept is that trimmed text alone. */
  lemma KeepLineSignificant(line: string)
    ensures KeepLine(line) == (if Significant(Trim(line)) then [Trim(line)] else [])
    ensures forall i :: 0 <= i < |KeepLine(line)| ==> Significant(KeepLine(line)[i])
  {
    TrimIdempotent(line);
  }

  /** A line that is significant as given is kept. */
  lemma {:induction false} SanitizeKeepsSignificantLines(lines: seq<string>)
    ensures forall i :: 0 <= i < |lines| && Significant(lines[i]) ==> lines[i] in Sanitize(lines)
  {
    if lines != [] {
      var k := KeepLine(lines[0]);
      SanitizeKeepsSignificantLines(lines[1..]);
      assert Significant(lines[0]) ==> k == [lines[0]];
      assert forall i :: 1 <= i < |lines| ==> lines[i] == lines[1..][i - 1];
    }
  }

  /** Index of the first label at or after `j`, or `|kept|`: the end of the body
      that starts at `j`. */
  function NextLabel(kept: seq<string>, j: nat): (k: nat)
    requires j <= |kept|
    ensures j <= k <= |kept|
    ensures k < |kept| ==> IsLabel(kept[k])
    ensures forall i :: j <= i < k ==> !IsLabel(kept[i])
    decreases |kept| - j
  {
    if j == |kept| || IsLabel(kept[j]) then j else NextLabel(kept, j + 1)
  }

  /** The grouping loop of `Routines::parse` over the kept lines. `pending` is
      `last_routine`: the label seen last and not yet given a body. A run of
      labels gives each but the last an empty body; a run of body lines is the
      body of the pending label, or the error "code without routine". The loop
      does not depend on how one line is parsed, so the line parser is a
      parameter (`Parse` passes `ParseLine`); its properties then hold for any. */
  function ParseKept(rs: Routines, pending: Option<string>, kept: seq<string>, parseLine: string -> Result<CodePoint>): (u: Update)
    ensures rs.Keys <= u.routines.Keys
    decreases |kept|
  {
    if kept == [] then
      match pending
      case None => Update(rs, Ok(()))
      case Some(p) => ParseRoutine(rs, p, [], parseLine)
    else if IsLabel(kept[0]) then
      var name := RoutineName(kept[0]);
      match pending
      case None => ParseKept(rs, Some(name), kept[1..], parseLine)
      case Some(p) =>
        var step := ParseRoutine(rs, p, [], parseLine);
        if step.status.Err? then step else ParseKept(step.routines, Some(name), kept[1..], parseLine)
    else
      match pending
      case None => Update(rs, Fail(ORPHAN_CODE))
      case Some(p) =>
        var n := NextLabel(kept, 0);
        var step := ParseRoutine(rs, p, kept[..n], parseLine);
        if step.status.Err? then step else ParseKept(step.routines, None, kept[n..], parseLine)
  }

  /** `Routines::parse` on a table `rs` (a fresh `Routines::new()` in practice).
      The table is mutated in place, so on failure it keeps the routines added
      before the failing one. */
  function Parse(rs: Routines, lines: seq<string>): (u: Update)
    ensures rs.Keys <= u.routines.Keys
  {
    ParseKept(rs, None, Sanitize(lines), ParseLine)
  }
}
