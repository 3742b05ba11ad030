/** The instruction and address model of `src/code.rs`: registers, unit and
    indirect memory locations, literal-or-location operands, the instruction
    set, the routine table, and the parsers from address tokens. */
module Code {
  import opened Wrappers
  import opened Text

  /** Rust's `u8`, the machine's cell and register width. */
  type uint8 = x: int | 0 <= x < 256

  const USIZE_LIMIT: nat := 0x1_0000_0000_0000_0000

  /** Rust's `usize` on a 64-bit target. */
  type usize = x: int | 0 <= x < USIZE_LIMIT

  /** The three registers (`code::Registry` in the source). */
  datatype Register = I1 | I2 | O

  /** A location without indirection: a register or a direct memory index. */
  datatype UnitLocation = Registry(reg: Register) | Mem(index: usize)

  /** A location behind `ptrCount` levels of pointer indirection. */
  datatype Location = Location(ptrCount: uint8, unit: UnitLocation)

  /** An operand that is either a location or a literal byte (`ValMemLoc`). */
  datatype Operand = MemLoc(loc: Location) | Value(lit: uint8)

  /** One instruction (`CodePoint`). */
  datatype CodePoint =
    | Set(dest: Location, value: uint8)
    | Cpy(dest: Location, source: Location)
    | Add | Sub | Mul | Div | Mod | Cmp
    | BJmp(cond: Location)
    | Land
    | RAdd(name: string)
    | RSwp(name: string)
    | Print(operand: Operand)
    | PrintC(operand: Operand)
    | Term

  type CodeBlock = seq<CodePoint>

  /** The routine table: routine name to its instructions. */
  type Routines = map<string, CodeBlock>

  /** The routine table after a call that mutates it, with the call's own result. */
  datatype Update = Update(routines: Routines, status: Result<()>)

  const DUPLICATE_ROUTINE := "Routine with the same name already exist"
  const BAD_MEMORY_INDEX := "M follow by invalid memory location"
  const UNKNOWN_LOCATION := "Unknown memory location"
  const BAD_OPERAND := "invalid literal/memory location"
  /** Stands for the panic of `str::split_at(1)` on an empty token or on one
      whose first character takes more than one byte. */
  const SPLIT_PANIC := "split_at(1) outside the token or inside a character"

  // ------------------------------------------------------------ routine table

  /** `Routines::new`. */
  function NewRoutines(): (rs: Routines)
    ensures |rs| == 0
  {
    map[]
  }

  /** `Routines::add_routine`: `HashMap::insert` always stores the block, and the
      call reports an error when the name was already present. */
  function AddRoutine(rs: Routines, name: string, block: CodeBlock): (u: Update)
    ensures u.routines.Keys == rs.Keys + {name}
    ensures u.routines[name] == block
    ensures forall k :: k in rs && k != name ==> u.routines[k] == rs[k]
    ensures u.status.Ok? <==> name !in rs
    ensures u.status.Err? ==> u.status == Fail(DUPLICATE_ROUTINE)
  {
    var status: Result<()> := if name in rs then Fail(DUPLICATE_ROUTINE) else Ok(());
    Update(rs[name := block], status)
  }

  // ------------------------------------------------------------ rendering

  /** The canonical token of a unit location. */
  function RenderUnit(u: UnitLocation): string {
    match u
    case Registry(I1) => "I1"
    case Registry(I2) => "I2"
    case Registry(O) => "O"
    case Mem(i) => "M" + ToDecimal(i)
  }

  function Stars(n: nat): (s: string)
    ensures |s| == n && forall i :: 0 <= i < n ==> s[i] == '*'
  {
    if n == 0 then [] else "*" + Stars(n - 1)
  }

  /** The canonical token of a location: one `*` per level of indirection. */
  function RenderLocation(l: Location): string {
    Stars(l.ptrCount) + RenderUnit(l.unit)
  }

  function RenderOperand(o: Operand): string {
    match o
    case MemLoc(l) => RenderLocation(l)
    case Value(v) => ToDecimal(v)
  }

  // ------------------------------------------------------------ token parsers

  /** `UnitMemLocation::try_from`. */
  function ParseUnit(s: string): (r: Result<UnitLocation>)
    // exactly the three register names denote registers
    ensures (r.Ok? && r.value.Registry?) <==> s in {"I1", "I2", "O"}
    ensures r.Ok? && r.value.Registry? ==> RenderUnit(r.value) == s
    // a memory index is `M` followed by a number that fits a usize
    ensures r.Ok? && r.value.Mem? ==>
              |s| > 1 && s[0] == 'M' && ParseUnsigned(s[1..], USIZE_LIMIT) == Some(r.value.index as nat)
    ensures r == Fail(BAD_MEMORY_INDEX) <==>
              |s| > 0 && s[0] == 'M' && ParseUnsigned(s[1..], USIZE_LIMIT).None?
    ensures r == Fail(UNKNOWN_LOCATION) <==>
              |s| > 0 && IsAscii(s[0]) && s[0] != 'M' && s !in {"I1", "I2", "O"}
    ensures (r.Err? && r.failure.Panicked?) <==> s == [] || !IsAscii(s[0])
    ensures r.Err? && r.failure.Reported? ==> r.failure.msg in {BAD_MEMORY_INDEX, UNKNOWN_LOCATION}
  {
    if s == "I1" then Ok(Registry(I1))
    else if s == "I2" then Ok(Registry(I2))
    else if s == "O" then Ok(Registry(O))
    else if s == [] || !IsAscii(s[0]) then Err(Panicked(SPLIT_PANIC))
    else if s[0] == 'M' then
      match ParseUnsigned(s[1..], USIZE_LIMIT)
      case Some(n) => Ok(Mem(n))
      case None => Fail(BAD_MEMORY_INDEX)
    else Fail(UNKNOWN_LOCATION)
  }

  /** `MemLocation::try_from`: leading `*`s count indirection levels (the count
      is cast to `u8`, so it wraps at 256) and the rest must be a unit location. */
  function ParseLocation(s: string): (r: Result<Location>)
    ensures var rest := ParseUnit(s[LeadingCount(s, '*')..]);
      && (r.Ok? <==> rest.Ok?)
      && (r.Ok? ==> r.value.unit == rest.value)
      && (r.Err? ==> r.failure == rest.failure)
    ensures r.Ok? ==> r.value.ptrCount == LeadingCount(s, '*') % 256
  {
    var stars := LeadingCount(s, '*');
    var unit :- ParseUnit(s[stars..]);
    Ok(Location(stars % 256, unit))
  }

  /** `ValMemLoc::try_from`: a location if the token is one, otherwise a `u8`
      literal. A panic while reading the location is not caught by `or_else`. */
  function ParseOperand(s: string): (r: Result<Operand>)
    ensures ParseLocation(s).Ok? ==> r == Ok(MemLoc(ParseLocation(s).value))
    ensures r.Ok? && r.value.Value? ==>
              ParseLocation(s).Err? && ParseUnsigned(s, 256) == Some(r.value.lit as nat)
    ensures r.Err? ==> r == Fail(BAD_OPERAND) || r == ParseLocation(s).PropagateFailure()
    // a reported location error falls back to a `u8` literal, or to "invalid literal/memory location"
    ensures ParseLocation(s).Err? && ParseLocation(s).failure.Reported? ==>
              r == (if ParseUnsigned(s, 256).Some? then Ok(Value(ParseUnsigned(s, 256).value)) else Fail(BAD_OPERAND))
    // a panic while reading the location is not caught
    ensures ParseLocation(s).Err? && ParseLocation(s).failure.Panicked? ==> r == ParseLocation(s).PropagateFailure()
  {
    match ParseLocation(s)
    case Ok(l) => Ok(MemLoc(l))
    case Err(Panicked(m)) => Err(Panicked(m))
    case Err(Reported(_)) =>
      match ParseUnsigned(s, 256)
      case Some(v) => Ok(Value(v))
      case None => Fail(BAD_OPERAND)
  }

  // ------------------------------------------------------------ properties

  /** Rendering a unit location and parsing it back gives the same cell. */
  lemma UnitRoundTrip(u: UnitLocation)
    ensures ParseUnit(RenderUnit(u)) == Ok(u)
  {
    if u.Mem? {
      var s := RenderUnit(u);
      assert s[1..] == ToDecimal(u.index);
      ParseDecimal(u.index, USIZE_LIMIT);
    }
  }

  /** Rendering a location and parsing it back gives the same location. */
  lemma LocationRoundTrip(l: Location)
    ensures ParseLocation(RenderLocation(l)) == Ok(l)
  {
    var s := RenderLocation(l);
    var u := RenderUnit(l.unit);
    assert s[..l.ptrCount] == Stars(l.ptrCount);
    assert s[l.ptrCount] == u[0];
    assert LeadingCount(s, '*') == l.ptrCount by {
      LeadingCountExact(s, '*', l.ptrCount);
    }
    assert s[l.ptrCount..] == u;
    UnitRoundTrip(l.unit);
  }

  lemma {:induction false} LeadingCountExact(s: string, c: char, n: nat)
    requires n <= |s| && (forall i :: 0 <= i < n ==> s[i] == c) && (n == |s| || s[n] != c)
    ensures LeadingCount(s, c) == n
    decreases n
  {
    if n > 0 {
      LeadingCountExact(s[1..], c, n - 1);
    }
  }

  /** A decimal token is never a location, so the operand parser reads it as a
      literal: the value itself when it fits a byte, an error otherwise. */
  lemma DecimalOperand(n: nat)
    ensures ParseOperand(ToDecimal(n)) ==
              if n < 256 then Ok(Value(n)) else Fail(BAD_OPERAND)
  {
    var s := ToDecimal(n);
    assert LeadingCount(s, '*') == 0;
    assert s[0..] == s;
    assert ParseLocation(s) == Fail(UNKNOWN_LOCATION);
    ParseDecimal(n, 256);
  }

  /** Every operand survives rendering and parsing back. */
  lemma OperandRoundTrip(o: Operand)
    ensures ParseOperand(RenderOperand(o)) == Ok(o)
  {
    match o
    case MemLoc(l) => LocationRoundTrip(l);
    case Value(v) => DecimalOperand(v);
  }
}
