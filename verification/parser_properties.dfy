/** What `Routines::parse` promises, stated without reference to its grouping
    loop: which inputs it accepts, and the routine table it builds. */
module ParserProperties {
  import opened Wrappers
  import opened Text
  import opened Code
  import opened Parser

  // ------------------------------------------------------------ reference view

  /** Kept line `i` is a label. */
  predicate LabelAt(kept: seq<string>, i: int) {
    0 <= i < |kept| && IsLabel(kept[i])
  }

  /** The routine name declared by kept line `i`. */
  function NameAt(kept: seq<string>, i: int): string
    requires 0 <= i < |kept|
  {
    RoutineName(kept[i])
  }

  /** The lines from `j` up to the next label: the body of the label before `j`. */
  function BodyAt(kept: seq<string>, j: nat): seq<string>
    requires j <= |kept|
  {
    kept[j..NextLabel(kept, j)]
  }

  /** Names declared by the labels at or after `from`. */
  function LabelNamesFrom(kept: seq<string>, from: nat): set<string> {
    set i | from <= i < |kept| && LabelAt(kept, i) :: NameAt(kept, i)
  }

  function PendingNames(pending: Option<string>): set<string> {
    match pending
    case None => {}
    case Some(p) => {p}
  }

  /** Every label at or after `from` declares a name outside `taken`. */
  ghost predicate NamesAvoid(kept: seq<string>, from: nat, taken: set<string>) {
    forall i {:trigger LabelAt(kept, i)} :: from <= i && LabelAt(kept, i) ==> NameAt(kept, i) !in taken
  }

  /** No two labels at or after `from` declare the same name. */
  ghost predicate NamesDistinct(kept: seq<string>, from: nat) {
    forall i, j {:trigger LabelAt(kept, i), LabelAt(kept, j)} ::
      from <= i < j && LabelAt(kept, i) && LabelAt(kept, j) ==> NameAt(kept, i) != NameAt(kept, j)
  }

  /** The body of every label at or after `from` parses. */
  ghost predicate BodiesParse(kept: seq<string>, from: nat, parseLine: string -> Result<CodePoint>) {
    forall i {:trigger LabelAt(kept, i)} :: from <= i && LabelAt(kept, i) ==> ParseEach(BodyAt(kept, i + 1), parseLine).Ok?
  }

  /** `out` holds, under the name of every label at or after `from`, the parse
      of that label's body. */
  ghost predicate BodiesStored(kept: seq<string>, from: nat, out: Routines, parseLine: string -> Result<CodePoint>) {
    forall i {:trigger LabelAt(kept, i)} :: from <= i && LabelAt(kept, i) ==>
      NameAt(kept, i) in out && ParseEach(BodyAt(kept, i + 1), parseLine) == Ok(out[NameAt(kept, i)])
  }

  /** `out` keeps every entry of `rs` unchanged. */
  ghost predicate Extends(rs: Routines, out: Routines) {
    forall k :: k in rs ==> k in out && out[k] == rs[k]
  }

  /** The kept lines from `from` on, with label `pending` open before them, form
      a program the parser accepts into table `rs`: no code before the first
      label, every body parses, and no name is declared twice or already taken. */
  ghost predicate WellFormedFrom(rs: Routines, pending: Option<string>, kept: seq<string>, from: nat,
                                 parseLine: string -> Result<CodePoint>)
    requires from <= |kept|
  {
    && (pending.None? ==> from == |kept| || IsLabel(kept[from]))
    && (pending.Some? ==> pending.value !in rs && ParseEach(BodyAt(kept, from), parseLine).Ok?)
    && NamesAvoid(kept, from, rs.Keys + PendingNames(pending))
    && NamesDistinct(kept, from)
    && BodiesParse(kept, from, parseLine)
  }

  /** `out` is `rs` extended by one routine per label (and for `pending`), each
      holding the parse of the lines up to the next label. */
  ghost predicate TabulatesFrom(rs: Routines, pending: Option<string>, kept: seq<string>, from: nat, out: Routines,
                                parseLine: string -> Result<CodePoint>)
    requires from <= |kept|
  {
    && out.Keys == rs.Keys + PendingNames(pending) + LabelNamesFrom(kept, from)
    && Extends(rs, out)
    && (pending.Some? ==>
          pending.value in out && ParseEach(BodyAt(kept, from), parseLine) == Ok(out[pending.value]))
    && BodiesStored(kept, from, out, parseLine)
  }

  // ------------------------------------------------------------ moving `from` by one line

  lemma StepAvoid(kept: seq<string>, from: nat, taken: set<string>)
    requires from < |kept|
    ensures IsLabel(kept[from]) ==>
      (NamesAvoid(kept, from, taken) <==> NameAt(kept, from) !in taken && NamesAvoid(kept, from + 1, taken))
  {
    if IsLabel(kept[from]) {
      assert LabelAt(kept, from);
    }
  }
  lemma StepNames(kept: seq<string>, from: nat)
    requires from < |kept|
    ensures IsLabel(kept[from]) ==>
      LabelNamesFrom(kept, from) == {NameAt(kept, from)} + LabelNamesFrom(kept, from + 1)
  {
    if IsLabel(kept[from]) {
      assert LabelAt(kept, from);
    }
  }
  lemma StepParse(kept: seq<string>, from: nat, parseLine: string -> Result<CodePoint>)
    requires from < |kept|
    ensures IsLabel(kept[from]) ==>
      (BodiesParse(kept, from, parseLine) <==>
            ParseEach(BodyAt(kept, from + 1), parseLine).Ok? && BodiesParse(kept, from + 1, parseLine))
  {
    if IsLabel(kept[from]) {
      assert LabelAt(kept, from);
    }
  }
  lemma StepDistinct(kept: seq<string>, from: nat)
    requires from < |kept|
    ensures IsLabel(kept[from]) ==>
      (NamesDistinct(kept, from) <==> NamesAvoid(kept, from + 1, {NameAt(kept, from)}) && NamesDistinct(kept, from + 1))
  {
    if IsLabel(kept[from]) {
      assert LabelAt(kept, from);
    }
  }
  lemma StepStored(kept: seq<string>, from: nat, out: Routines, parseLine: string -> Result<CodePoint>)
    requires from < |kept|
    ensures IsLabel(kept[from]) ==>
      (BodiesStored(kept, from, out, parseLine) <==>
            NameAt(kept, from) in out && ParseEach(BodyAt(kept, from + 1), parseLine) == Ok(out[NameAt(kept, from)])
            && BodiesStored(kept, from + 1, out, parseLine))
  {
    if IsLabel(kept[from]) {
      assert LabelAt(kept, from);
    }
  }
  lemma OtherAvoid(kept: seq<string>, from: nat, taken: set<string>)
    requires from < |kept| && !IsLabel(kept[from])
    ensures NamesAvoid(kept, from, taken) <==> NamesAvoid(kept, from + 1, taken)
  {
  }
  lemma OtherDistinct(kept: seq<string>, from: nat)
    requires from < |kept| && !IsLabel(kept[from])
    ensures NamesDistinct(kept, from) <==> NamesDistinct(kept, from + 1)
  {
  }
  lemma OtherParse(kept: seq<string>, from: nat, parseLine: string -> Result<CodePoint>)
    requires from < |kept| && !IsLabel(kept[from])
    ensures BodiesParse(kept, from, parseLine) <==> BodiesParse(kept, from + 1, parseLine)
  {
  }
  lemma OtherStored(kept: seq<string>, from: nat, out: Routines, parseLine: string -> Result<CodePoint>)
    requires from < |kept| && !IsLabel(kept[from])
    ensures BodiesStored(kept, from, out, parseLine) <==> BodiesStored(kept, from + 1, out, parseLine)
  {
  }
  lemma OtherNames(kept: seq<string>, from: nat)
    requires from < |kept| && !IsLabel(kept[from])
    ensures LabelNamesFrom(kept, from) == LabelNamesFrom(kept, from + 1)
  {
  }

  /** Skipping a stretch of body lines changes none of the per-label predicates. */
  lemma {:induction false} SkipAvoid(kept: seq<string>, from: nat, upto: nat, taken: set<string>)
    requires from <= upto <= |kept|
    requires forall i :: from <= i < upto ==> !IsLabel(kept[i])
    ensures NamesAvoid(kept, from, taken) <==> NamesAvoid(kept, upto, taken)
    decreases upto - from
  {
    if from < upto {
      OtherAvoid(kept, from, taken);
      SkipAvoid(kept, from + 1, upto, taken);
    }
  }

  lemma {:induction false} SkipDistinct(kept: seq<string>, from: nat, upto: nat)
    requires from <= upto <= |kept|
    requires forall i :: from <= i < upto ==> !IsLabel(kept[i])
    ensures NamesDistinct(kept, from) <==> NamesDistinct(kept, upto)
    decreases upto - from
  {
    if from < upto {
      OtherDistinct(kept, from);
      SkipDistinct(kept, from + 1, upto);
    }
  }

  lemma {:induction false} SkipParse(kept: seq<string>, from: nat, upto: nat, parseLine: string -> Result<CodePoint>)
    requires from <= upto <= |kept|
    requires forall i :: from <= i < upto ==> !IsLabel(kept[i])
    ensures BodiesParse(kept, from, parseLine) <==> BodiesParse(kept, upto, parseLine)
    decreases upto - from
  {
    if from < upto {
      OtherParse(kept, from, parseLine);
      SkipParse(kept, from + 1, upto, parseLine);
    }
  }

  lemma {:induction false} SkipStored(kept: seq<string>, from: nat, upto: nat, out: Routines, parseLine: string -> Result<CodePoint>)
    requires from <= upto <= |kept|
    requires forall i :: from <= i < upto ==> !IsLabel(kept[i])
    ensures BodiesStored(kept, from, out, parseLine) <==> BodiesStored(kept, upto, out, parseLine)
    decreases upto - from
  {
    if from < upto {
      OtherStored(kept, from, out, parseLine);
      SkipStored(kept, from + 1, upto, out, parseLine);
    }
  }

  lemma {:induction false} SkipNames(kept: seq<string>, from: nat, upto: nat)
    requires from <= upto <= |kept|
    requires forall i :: from <= i < upto ==> !IsLabel(kept[i])
    ensures LabelNamesFrom(kept, from) == LabelNamesFrom(kept, upto)
    decreases upto - from
  {
    if from < upto {
      OtherNames(kept, from);
      SkipNames(kept, from + 1, upto);
    }
  }

  lemma AvoidUnion(kept: seq<string>, from: nat, a: set<string>, b: set<string>)
    ensures NamesAvoid(kept, from, a + b) <==> NamesAvoid(kept, from, a) && NamesAvoid(kept, from, b)
  {
  }

  lemma {:induction false} NextLabelShift(kept: seq<string>, d: nat, j: nat)
    requires d <= j <= |kept|
    ensures NextLabel(kept[d..], j - d) == NextLabel(kept, j) - d
    decreases |kept| - j
  {
    if j < |kept| && !IsLabel(kept[j]) {
      assert kept[d..][j - d] == kept[j];
      NextLabelShift(kept, d, j + 1);
    }
  }

  // ------------------------------------------------------------ the three shapes of a step

  /** The kept line at `from` is a label and no label is pending: the label
      becomes pending. */
  lemma LabelWithoutPendingAccepts(rs: Routines, kept: seq<string>, from: nat, parseLine: string -> Result<CodePoint>)
    requires from < |kept| && IsLabel(kept[from])
    ensures WellFormedFrom(rs, None, kept, from, parseLine) <==> WellFormedFrom(rs, Some(NameAt(kept, from)), kept, from + 1, parseLine)
  {
    var name := NameAt(kept, from);
    StepAvoid(kept, from, rs.Keys);
    StepDistinct(kept, from);
    StepParse(kept, from, parseLine);
    AvoidUnion(kept, from + 1, rs.Keys, {name});
  }

  lemma LabelWithoutPendingTable(rs: Routines, kept: seq<string>, from: nat, out: Routines, parseLine: string -> Result<CodePoint>)
    requires from < |kept| && IsLabel(kept[from])
    requires TabulatesFrom(rs, Some(NameAt(kept, from)), kept, from + 1, out, parseLine)
    ensures TabulatesFrom(rs, None, kept, from, out, parseLine)
  {
    StepStored(kept, from, out, parseLine);
    StepNames(kept, from);
  }

  /** The kept line at `from` is a label and label `p` is pending: `p` is
      stored with an empty body and the new label becomes pending. */
  lemma LabelAfterPendingAccepts(rs: Routines, p: string, kept: seq<string>, from: nat, parseLine: string -> Result<CodePoint>)
    requires from < |kept| && IsLabel(kept[from]) && p !in rs
    ensures BodyAt(kept, from) == []
    ensures WellFormedFrom(rs, Some(p), kept, from, parseLine) <==> WellFormedFrom(rs[p := []], Some(NameAt(kept, from)), kept, from + 1, parseLine)
  {
    var name := NameAt(kept, from);
    var rs1 := rs[p := []];
    assert NextLabel(kept, from) == from;
    assert BodyAt(kept, from) == [];
    assert ParseEach([], parseLine) == Ok([]);
    assert rs1.Keys == rs.Keys + {p};
    StepAvoid(kept, from, rs.Keys + {p});
    StepDistinct(kept, from);
    StepParse(kept, from, parseLine);
    AvoidUnion(kept, from + 1, rs.Keys + {p}, {name});
  }

  lemma LabelAfterPendingTable(rs: Routines, p: string, kept: seq<string>, from: nat, out: Routines, parseLine: string -> Result<CodePoint>)
    requires from < |kept| && IsLabel(kept[from]) && p !in rs
    requires TabulatesFrom(rs[p := []], Some(NameAt(kept, from)), kept, from + 1, out, parseLine)
    ensures TabulatesFrom(rs, Some(p), kept, from, out, parseLine)
  {
    var rs1 := rs[p := []];
    assert NextLabel(kept, from) == from;
    assert BodyAt(kept, from) == [];
    assert ParseEach([], parseLine) == Ok([]);
    assert rs1.Keys == rs.Keys + {p};
    StepNames(kept, from);
    assert out.Keys == rs.Keys + PendingNames(Some(p)) + LabelNamesFrom(kept, from);
    assert Extends(rs, out);
    assert p in out && ParseEach(BodyAt(kept, from), parseLine) == Ok(out[p]) by {
      assert out[p] == rs1[p];
    }
    StepStored(kept, from, out, parseLine);
  }

  /** The kept lines at `from` start a body run, which is stored under pending
      `p`; no label is pending after it. */
  lemma BodyAfterPendingAccepts(rs: Routines, p: string, block: CodeBlock, kept: seq<string>, from: nat,
                                parseLine: string -> Result<CodePoint>)
    requires from < |kept| && !IsLabel(kept[from]) && p !in rs
    requires ParseEach(BodyAt(kept, from), parseLine) == Ok(block)
    ensures WellFormedFrom(rs, Some(p), kept, from, parseLine) <==> WellFormedFrom(rs[p := block], None, kept, NextLabel(kept, from), parseLine)
  {
    var next := NextLabel(kept, from);
    var rs1 := rs[p := block];
    assert rs1.Keys == rs.Keys + {p};
    SkipAvoid(kept, from, next, rs.Keys + {p});
    SkipDistinct(kept, from, next);
    SkipParse(kept, from, next, parseLine);
  }

  lemma BodyAfterPendingTable(rs: Routines, p: string, block: CodeBlock, kept: seq<string>, from: nat, out: Routines,
                              parseLine: string -> Result<CodePoint>)
    requires from < |kept| && !IsLabel(kept[from]) && p !in rs
    requires ParseEach(BodyAt(kept, from), parseLine) == Ok(block)
    requires TabulatesFrom(rs[p := block], None, kept, NextLabel(kept, from), out, parseLine)
    ensures TabulatesFrom(rs, Some(p), kept, from, out, parseLine)
  {
    var next := NextLabel(kept, from);
    var rs1 := rs[p := block];
    assert rs1.Keys == rs.Keys + {p};
    SkipStored(kept, from, next, out, parseLine);
    SkipNames(kept, from, next);
    assert out[p] == rs1[p];
  }

  // ------------------------------------------------------------ the theorem

  /** What the grouping loop promises from line `from` on: it succeeds exactly
      on well-formed input, and then builds the reference table. */
  ghost predicate KeptCorrect(rs: Routines, pending: Option<string>, kept: seq<string>, from: nat,
                              parseLine: string -> Result<CodePoint>)
    requires from <= |kept|
  {
    var u := ParseKept(rs, pending, kept[from..], parseLine);
    && (u.status.Ok? <==> WellFormedFrom(rs, pending, kept, from, parseLine))
    && (u.status.Ok? ==> TabulatesFrom(rs, pending, kept, from, u.routines, parseLine))
  }

  /** The grouping loop accepts exactly the well-formed programs, and what it
      builds is the reference table: the old entries, plus one entry per label
      holding the parse of the lines up to the next label. */
  lemma {:induction false} ParseKeptSpec(rs: Routines, pending: Option<string>, kept: seq<string>, from: nat,
                                         parseLine: string -> Result<CodePoint>)
    requires from <= |kept|
    ensures var u := ParseKept(rs, pending, kept[from..], parseLine);
      && (u.status.Ok? <==> WellFormedFrom(rs, pending, kept, from, parseLine))
      && (u.status.Ok? ==> TabulatesFrom(rs, pending, kept, from, u.routines, parseLine))
    decreases |kept| - from, 1
  {
    if from == |kept| {
      KeptAtEnd(rs, pending, kept, parseLine);
    } else if IsLabel(kept[from]) {
      KeptAtLabel(rs, pending, kept, from, parseLine);
    } else {
      KeptAtBody(rs, pending, kept, from, parseLine);
    }
  }

  lemma KeptAtEnd(rs: Routines, pending: Option<string>, kept: seq<string>, parseLine: string -> Result<CodePoint>)
    ensures KeptCorrect(rs, pending, kept, |kept|, parseLine)
  {
    var from := |kept|;
    assert kept[from..] == [];
    assert LabelNamesFrom(kept, from) == {};
    if pending.Some? {
      assert NextLabel(kept, from) == from;
      assert ParseEach([], parseLine) == Ok([]);
    }
  }

  lemma {:induction false} KeptAtLabel(rs: Routines, pending: Option<string>, kept: seq<string>, from: nat,
                                       parseLine: string -> Result<CodePoint>)
    requires from < |kept| && IsLabel(kept[from])
    ensures KeptCorrect(rs, pending, kept, from, parseLine)
    decreases |kept| - from, 0
  {
    var s := kept[from..];
    var u := ParseKept(rs, pending, s, parseLine);
    assert s[0] == kept[from] && s[1..] == kept[from + 1..];
    var name := NameAt(kept, from);
    match pending
    case None =>
      assert u == ParseKept(rs, Some(name), kept[from + 1..], parseLine);
      ParseKeptSpec(rs, Some(name), kept, from + 1, parseLine);
      LabelWithoutPendingAccepts(rs, kept, from, parseLine);
      if u.status.Ok? {
        LabelWithoutPendingTable(rs, kept, from, u.routines, parseLine);
      }
    case Some(p) =>
      assert ParseEach([], parseLine) == Ok([]);
      if p !in rs {
        assert u == ParseKept(rs[p := []], Some(name), kept[from + 1..], parseLine);
        ParseKeptSpec(rs[p := []], Some(name), kept, from + 1, parseLine);
        LabelAfterPendingAccepts(rs, p, kept, from, parseLine);
        if u.status.Ok? {
          LabelAfterPendingTable(rs, p, kept, from, u.routines, parseLine);
        }
      }
  }

  lemma {:induction false} KeptAtBody(rs: Routines, pending: Option<string>, kept: seq<string>, from: nat,
                                      parseLine: string -> Result<CodePoint>)
    requires from < |kept| && !IsLabel(kept[from])
    ensures KeptCorrect(rs, pending, kept, from, parseLine)
    ensures pending.None? ==> ParseKept(rs, pending, kept[from..], parseLine).status == Fail(ORPHAN_CODE)
    decreases |kept| - from, 0
  {
    var s := kept[from..];
    var u := ParseKept(rs, pending, s, parseLine);
    assert s[0] == kept[from];
    match pending
    case None =>
    case Some(p) =>
      var next := NextLabel(kept, from);
      NextLabelShift(kept, from, from);
      assert s[..next - from] == BodyAt(kept, from);
      assert s[next - from..] == kept[next..];
      var block := ParseEach(BodyAt(kept, from), parseLine);
      if block.Ok? && p !in rs {
        assert u == ParseKept(rs[p := block.value], None, kept[next..], parseLine);
        ParseKeptSpec(rs[p := block.value], None, kept, next, parseLine);
        BodyAfterPendingAccepts(rs, p, block.value, kept, from, parseLine);
        if u.status.Ok? {
          BodyAfterPendingTable(rs, p, block.value, kept, from, u.routines, parseLine);
        }
      }
  }

  // ------------------------------------------------------------ the whole parser

  /** `Routines::parse` succeeds exactly when the kept lines start with a
      label, every body parses and no routine name is declared twice or
      already present; it then holds the old routines plus, under each label's
      name, the instructions of the lines up to the next label (none when
      two labels are adjacent). */
  lemma ParseSpec(rs: Routines, lines: seq<string>)
    ensures var kept := Sanitize(lines); var u := Parse(rs, lines);
      && (u.status.Ok? <==> WellFormedFrom(rs, None, kept, 0, ParseLine))
      && (u.status.Ok? ==> TabulatesFrom(rs, None, kept, 0, u.routines, ParseLine))
  {
    var kept := Sanitize(lines);
    assert kept[0..] == kept;
    ParseKeptSpec(rs, None, kept, 0, ParseLine);
  }

  /** Each routine holds one instruction per kept line of its body, in order. */
  lemma BodyOneForOne(kept: seq<string>, j: nat, block: CodeBlock, parseLine: string -> Result<CodePoint>)
    requires j <= |kept|
    requires forall i :: 0 <= i < |kept| ==> kept[i] != []
    requires ParseEach(BodyAt(kept, j), parseLine) == Ok(block)
    ensures |block| == NextLabel(kept, j) - j
    ensures forall k :: 0 <= k < |block| ==> parseLine(kept[j + k]) == Ok(block[k])
  {
    var body := BodyAt(kept, j);
    ParseEachSpec(body, parseLine);
    assert forall k :: 0 <= k < |body| ==> body[k] == kept[j + k];
  }

  /** A body that does not parse fails with the error of its first failing
      line, so parsing aborts there. */
  lemma BodyFailsAtFirstBadLine(kept: seq<string>, j: nat, parseLine: string -> Result<CodePoint>)
    requires j <= |kept|
    requires ParseEach(BodyAt(kept, j), parseLine).Err?
    ensures exists k: nat :: FailsFirstAt(BodyAt(kept, j), parseLine, k, ParseEach(BodyAt(kept, j), parseLine).failure)
  {
    ParseEachSpec(BodyAt(kept, j), parseLine);
  }

  // ------------------------------------------------------------ the error of a failing parse

  /** Line `i` is the first body line of `kept`, in program order, that the
      line parser rejects, and it is rejected with `f`. */
  ghost predicate FirstBadBodyLine(kept: seq<string>, parseLine: string -> Result<CodePoint>, i: nat, f: Failure) {
    && i < |kept| && !IsLabel(kept[i]) && parseLine(kept[i]) == Err(f)
    && forall j :: 0 <= j < i && kept[j] != [] && !IsLabel(kept[j]) ==> parseLine(kept[j]).Ok?
  }

  /** `f` is an error parsing `kept` can stop with: code before the first
      label, a routine name declared twice, or the error of the first body
      line that does not parse. */
  ghost predicate ErrorOf(kept: seq<string>, parseLine: string -> Result<CodePoint>, f: Failure) {
    || f == Reported(ORPHAN_CODE)
    || f == Reported(DUPLICATE_ROUTINE)
    || exists i: nat :: FirstBadBodyLine(kept, parseLine, i, f)
  }

  /** An error of a suffix is an error of the whole when every body line
      before the suffix parses. */
  lemma ErrorOfSuffix(kept: seq<string>, k: nat, parseLine: string -> Result<CodePoint>, f: Failure)
    requires k <= |kept| && ErrorOf(kept[k..], parseLine, f)
    requires forall j :: 0 <= j < k && kept[j] != [] && !IsLabel(kept[j]) ==> parseLine(kept[j]).Ok?
    ensures ErrorOf(kept, parseLine, f)
  {
    if exists i: nat :: FirstBadBodyLine(kept[k..], parseLine, i, f) {
      var i: nat :| FirstBadBodyLine(kept[k..], parseLine, i, f);
      assert forall j :: k <= j < |kept| ==> kept[j] == kept[k..][j - k];
      assert FirstBadBodyLine(kept, parseLine, k + i, f);
    }
  }

  /** The grouping loop fails only with one of the errors of `ErrorOf`. */
  lemma {:induction false} KeptErrors(rs: Routines, pending: Option<string>, kept: seq<string>,
                                      parseLine: string -> Result<CodePoint>)
    ensures var u := ParseKept(rs, pending, kept, parseLine);
      u.status.Err? ==> ErrorOf(kept, parseLine, u.status.failure)
    decreases |kept|
  {
    var u := ParseKept(rs, pending, kept, parseLine);
    assert ParseEach([], parseLine) == Ok([]);
    if kept != [] && IsLabel(kept[0]) {
      var name := RoutineName(kept[0]);
      var next := match pending
        case None => rs
        case Some(p) => ParseRoutine(rs, p, [], parseLine).routines;
      if pending.None? || ParseRoutine(rs, pending.value, [], parseLine).status.Ok? {
        KeptErrors(next, Some(name), kept[1..], parseLine);
        if u.status.Err? {
          ErrorOfSuffix(kept, 1, parseLine, u.status.failure);
        }
      }
    } else if kept != [] && pending.Some? {
      var n := NextLabel(kept, 0);
      var body := kept[..n];
      var block := ParseEach(body, parseLine);
      ParseEachSpec(body, parseLine);
      assert forall j :: 0 <= j < n ==> body[j] == kept[j];
      if block.Err? {
        var i: nat :| FailsFirstAt(body, parseLine, i, block.failure);
        assert FirstBadBodyLine(kept, parseLine, i, block.failure);
      } else if pending.value !in rs {
        KeptErrors(rs[pending.value := block.value], None, kept[n..], parseLine);
        if u.status.Err? {
          ErrorOfSuffix(kept, n, parseLine, u.status.failure);
        }
      }
    }
  }

  /** A failing parse reports "code without routine", "Routine with the same
      name already exist", or the error `parse_line` gives for the first kept
      body line it rejects; the duplicate-name error needs a clash of names. */
  lemma ParseErrors(rs: Routines, lines: seq<string>)
    ensures var u := Parse(rs, lines);
      u.status.Err? ==> ErrorOf(Sanitize(lines), ParseLine, u.status.failure)
    ensures var kept := Sanitize(lines);
      Parse(rs, lines).status == Fail(DUPLICATE_ROUTINE) ==>
        !(NamesAvoid(kept, 0, rs.Keys) && NamesDistinct(kept, 0))
  {
    KeptErrors(rs, None, Sanitize(lines), ParseLine);
    DuplicateOnlyOnClash(rs, lines);
  }

  // ------------------------------------------------------------ "code without routine"

  /** Errors a line parser can report that are not the orphan-code error. */
  ghost predicate NeverOrphan(parseLine: string -> Result<CodePoint>) {
    forall line :: parseLine(line) != Fail(ORPHAN_CODE)
  }

  lemma ParseEachNeverOrphan(lines: seq<string>, parseLine: string -> Result<CodePoint>)
    requires NeverOrphan(parseLine)
    ensures ParseEach(lines, parseLine) != Fail(ORPHAN_CODE)
  {
    ParseEachSpec(lines, parseLine);
    var r := ParseEach(lines, parseLine);
    if r.Err? {
      var i: nat :| FailsFirstAt(lines, parseLine, i, r.failure);
      assert parseLine(lines[i]) == Err(r.failure);
    }
  }

  /** Once a label has been read, the grouping loop never reports orphan code:
      after a body comes a label or the end of the input. */
  lemma {:induction false} NoOrphanAfterLabel(rs: Routines, pending: Option<string>, kept: seq<string>,
                                              parseLine: string -> Result<CodePoint>)
    requires NeverOrphan(parseLine)
    requires pending.None? ==> kept == [] || IsLabel(kept[0])
    ensures ParseKept(rs, pending, kept, parseLine).status != Fail(ORPHAN_CODE)
    decreases |kept|
  {
    if kept == [] {
      if pending.Some? {
        ParseEachNeverOrphan([], parseLine);
      }
    } else if IsLabel(kept[0]) {
      var name := RoutineName(kept[0]);
      match pending
      case None =>
        NoOrphanAfterLabel(rs, Some(name), kept[1..], parseLine);
      case Some(p) =>
        ParseEachNeverOrphan([], parseLine);
        var step := ParseRoutine(rs, p, [], parseLine);
        if step.status.Ok? {
          NoOrphanAfterLabel(step.routines, Some(name), kept[1..], parseLine);
        }
    } else {
      var p := pending.value;
      var n := NextLabel(kept, 0);
      ParseEachNeverOrphan(kept[..n], parseLine);
      var step := ParseRoutine(rs, p, kept[..n], parseLine);
      if step.status.Ok? {
        NoOrphanAfterLabel(step.routines, None, kept[n..], parseLine);
      }
    }
  }

  lemma LineNeverOrphan()
    ensures NeverOrphan(ParseLine)
  {
    OrphanIsNoLineError();
    forall line
      ensures ParseLine(line) != Fail(ORPHAN_CODE)
    {
      var r := ParseTokens(Words(line));
      assert r.Err? ==> r.failure.Panicked? || r.failure.msg in LINE_ERRORS;
    }
  }

  lemma OrphanIsNoLineError()
    ensures ORPHAN_CODE !in LINE_ERRORS
  {
    assert |ORPHAN_CODE| == 20;
    assert |UNKNOWN_KEYWORD| == 15 && |BAD_VALUE| == 18 && |BAD_MEMORY_INDEX| == 35;
    assert |UNKNOWN_LOCATION| == 23 && |BAD_OPERAND| == 31;
  }

  /** Parsing reports "code without routine" exactly when the first line that
      is neither blank nor a comment is not a label. */
  lemma CodeWithoutRoutine(rs: Routines, lines: seq<string>)
    ensures var kept := Sanitize(lines);
      Parse(rs, lines).status == Fail(ORPHAN_CODE) <==> kept != [] && !IsLabel(kept[0])
  {
    var kept := Sanitize(lines);
    if kept == [] || IsLabel(kept[0]) {
      LineNeverOrphan();
      NoOrphanAfterLabel(rs, None, kept, ParseLine);
    }
  }

  // ------------------------------------------------------------ "Routine with the same name already exist"

  /** Errors a line parser can report that are not the duplicate-name error. */
  ghost predicate NeverDuplicate(parseLine: string -> Result<CodePoint>) {
    forall line :: parseLine(line) != Fail(DUPLICATE_ROUTINE)
  }

  lemma ParseEachNeverDuplicate(lines: seq<string>, parseLine: string -> Result<CodePoint>)
    requires NeverDuplicate(parseLine)
    ensures ParseEach(lines, parseLine) != Fail(DUPLICATE_ROUTINE)
  {
    ParseEachSpec(lines, parseLine);
    var r := ParseEach(lines, parseLine);
    if r.Err? {
      var i: nat :| FailsFirstAt(lines, parseLine, i, r.failure);
      assert parseLine(lines[i]) == Err(r.failure);
    }
  }

  /** No label from `from` on declares a name that is already in `rs`, is
      the pending name, or is declared by another label; nor is the pending
      name itself in `rs`. */
  ghost predicate NoClash(rs: Routines, pending: Option<string>, kept: seq<string>, from: nat) {
    && (pending.Some? ==> pending.value !in rs)
    && NamesAvoid(kept, from, rs.Keys + PendingNames(pending))
    && NamesDistinct(kept, from)
  }

  /** The grouping loop reports a duplicate name only when names clash. */
  lemma {:induction false} DuplicateNeedsClash(rs: Routines, pending: Option<string>, kept: seq<string>, from: nat,
                                               parseLine: string -> Result<CodePoint>)
    requires from <= |kept| && NeverDuplicate(parseLine)
    ensures ParseKept(rs, pending, kept[from..], parseLine).status == Fail(DUPLICATE_ROUTINE) ==>
      !NoClash(rs, pending, kept, from)
    decreases |kept| - from, 1
  {
    if from == |kept| {
      assert kept[from..] == [];
      if pending.Some? {
        ParseEachNeverDuplicate([], parseLine);
      }
    } else if IsLabel(kept[from]) {
      DuplicateAtLabel(rs, pending, kept, from, parseLine);
    } else if pending.Some? {
      DuplicateAtBody(rs, pending.value, kept, from, parseLine);
    } else {
      KeptAtBody(rs, pending, kept, from, parseLine);
    }
  }

  lemma {:induction false} DuplicateAtLabel(rs: Routines, pending: Option<string>, kept: seq<string>, from: nat,
                                            parseLine: string -> Result<CodePoint>)
    requires from < |kept| && IsLabel(kept[from]) && NeverDuplicate(parseLine)
    ensures ParseKept(rs, pending, kept[from..], parseLine).status == Fail(DUPLICATE_ROUTINE) ==>
      !NoClash(rs, pending, kept, from)
    decreases |kept| - from, 0
  {
    var s := kept[from..];
    var u := ParseKept(rs, pending, s, parseLine);
    assert s[0] == kept[from] && s[1..] == kept[from + 1..];
    var name := NameAt(kept, from);
    match pending
    case None =>
      assert u == ParseKept(rs, Some(name), kept[from + 1..], parseLine);
      DuplicateNeedsClash(rs, Some(name), kept, from + 1, parseLine);
      ClashesAtLabel(kept, from, rs.Keys);
      assert rs.Keys + PendingNames(None) == rs.Keys;
    case Some(p) =>
      if p !in rs {
        assert ParseEach([], parseLine) == Ok([]);
        var rs' := rs[p := []];
        assert u == ParseKept(rs', Some(name), kept[from + 1..], parseLine);
        assert rs'.Keys == rs.Keys + {p};
        DuplicateNeedsClash(rs', Some(name), kept, from + 1, parseLine);
        ClashesAtLabel(kept, from, rs.Keys + {p});
      }
  }

  lemma {:induction false} DuplicateAtBody(rs: Routines, p: string, kept: seq<string>, from: nat,
                                           parseLine: string -> Result<CodePoint>)
    requires from < |kept| && !IsLabel(kept[from]) && NeverDuplicate(parseLine)
    ensures ParseKept(rs, Some(p), kept[from..], parseLine).status == Fail(DUPLICATE_ROUTINE) ==>
      !NoClash(rs, Some(p), kept, from)
    decreases |kept| - from, 0
  {
    var s := kept[from..];
    var u := ParseKept(rs, Some(p), s, parseLine);
    assert s[0] == kept[from];
    var next := NextLabel(kept, from);
    NextLabelShift(kept, from, from);
    assert s[..next - from] == BodyAt(kept, from);
    assert s[next - from..] == kept[next..];
    var block := ParseEach(BodyAt(kept, from), parseLine);
    ParseEachNeverDuplicate(BodyAt(kept, from), parseLine);
    if block.Ok? && p !in rs {
      var rs' := rs[p := block.value];
      assert u == ParseKept(rs', None, kept[next..], parseLine);
      assert rs'.Keys == rs.Keys + {p};
      DuplicateNeedsClash(rs', None, kept, next, parseLine);
      ClashesAfterBody(kept, from, next, rs.Keys + {p});
    }
  }

  /** Names that avoid `taken` and each other from a label on still do so
      after it, with the label's own name added to `taken`. */
  lemma ClashesAtLabel(kept: seq<string>, from: nat, taken: set<string>)
    requires from < |kept| && IsLabel(kept[from])
    ensures NamesAvoid(kept, from, taken) && NamesDistinct(kept, from) ==>
      && NameAt(kept, from) !in taken
      && NamesAvoid(kept, from + 1, taken + {NameAt(kept, from)})
      && NamesDistinct(kept, from + 1)
  {
    StepAvoid(kept, from, taken);
    StepDistinct(kept, from);
    AvoidUnion(kept, from + 1, taken, {NameAt(kept, from)});
  }

  /** Body lines declare no names, so skipping them keeps both predicates. */
  lemma ClashesAfterBody(kept: seq<string>, from: nat, next: nat, taken: set<string>)
    requires from <= next <= |kept|
    requires forall i :: from <= i < next ==> !IsLabel(kept[i])
    ensures NamesAvoid(kept, from, taken) && NamesDistinct(kept, from) ==>
      NamesAvoid(kept, next, taken + {}) && NamesDistinct(kept, next)
  {
    SkipAvoid(kept, from, next, taken);
    SkipDistinct(kept, from, next);
    assert taken + {} == taken;
  }

  lemma LineNeverDuplicate()
    ensures NeverDuplicate(ParseLine)
  {
    DuplicateIsNoLineError();
    forall line
      ensures ParseLine(line) != Fail(DUPLICATE_ROUTINE)
    {
      var r := ParseTokens(Words(line));
      assert r.Err? ==> r.failure.Panicked? || r.failure.msg in LINE_ERRORS;
    }
  }

  lemma DuplicateIsNoLineError()
    ensures DUPLICATE_ROUTINE !in LINE_ERRORS
  {
    assert |DUPLICATE_ROUTINE| == 40;
    assert |UNKNOWN_KEYWORD| == 15 && |BAD_VALUE| == 18 && |BAD_MEMORY_INDEX| == 35;
    assert |UNKNOWN_LOCATION| == 23 && |BAD_OPERAND| == 31;
  }

  /** Parsing reports "Routine with the same name already exist" only when a
      label declares a name the table already holds, or two labels declare
      the same name. */
  lemma DuplicateOnlyOnClash(rs: Routines, lines: seq<string>)
    ensures var kept := Sanitize(lines);
      Parse(rs, lines).status == Fail(DUPLICATE_ROUTINE) ==>
        !(NamesAvoid(kept, 0, rs.Keys) && NamesDistinct(kept, 0))
  {
    var kept := Sanitize(lines);
    LineNeverDuplicate();
    DuplicateNeedsClash(rs, None, kept, 0, ParseLine);
    assert kept[0..] == kept;
    assert rs.Keys + PendingNames(None) == rs.Keys;
  }

  // ------------------------------------------------------------ what the parser ignores

  /** Sanitizing works line by line. */
  lemma {:induction false} SanitizeAppend(a: seq<string>, b: seq<string>)
    ensures Sanitize(a + b) == Sanitize(a) + Sanitize(b)
    decreases |a|
  {
    if a == [] {
      assert a + b == b;
    } else {
      var ab := a + b;
      assert ab[0] == a[0] && ab[1..] == a[1..] + b;
      SanitizeAppend(a[1..], b);
      var k := KeepLine(a[0]);
      assert k + (Sanitize(a[1..]) + Sanitize(b)) == (k + Sanitize(a[1..])) + Sanitize(b);
    }
  }

  /** A line that is blank, or whose first non-blank character is `#`, can be
      inserted anywhere without changing the result. */
  lemma IgnoredLine(rs: Routines, a: seq<string>, c: string, b: seq<string>)
    requires Trim(c) == [] || IsComment(Trim(c))
    ensures Parse(rs, a + [c] + b) == Parse(rs, a + b)
  {
    IgnoredLineKept(a, c, b);
  }

  lemma IgnoredLineKept(a: seq<string>, c: string, b: seq<string>)
    requires Trim(c) == [] || IsComment(Trim(c))
    ensures Sanitize(a + [c] + b) == Sanitize(a + b)
  {
    SanitizeAppend(a, [c]);
    SanitizeAppend(a + [c], b);
    SanitizeAppend(a, b);
    DropsIgnored(c);
    assert Sanitize(a) + [] == Sanitize(a);
  }

  lemma DropsIgnored(c: string)
    requires Trim(c) == [] || IsComment(Trim(c))
    ensures Sanitize([c]) == []
  {
    assert [c][0] == c && [c][1..] == [];
    assert KeepLine(c) == [];
  }

  /** Only the trimmed text of a line matters: indentation and trailing blanks
      change nothing. */
  lemma {:induction false} IndentationIrrelevant(rs: Routines, lines: seq<string>, other: seq<string>)
    requires |lines| == |other|
    requires forall i :: 0 <= i < |lines| ==> Trim(lines[i]) == Trim(other[i])
    ensures Parse(rs, lines) == Parse(rs, other)
  {
    SanitizeTrimmed(lines, other);
  }

  lemma SanitizeTrimmed(lines: seq<string>, other: seq<string>)
    requires |lines| == |other|
    requires forall i :: 0 <= i < |lines| ==> Trim(lines[i]) == Trim(other[i])
    ensures Sanitize(lines) == Sanitize(other)
  {
    forall i | 0 <= i < |lines|
      ensures KeepLine(lines[i]) == KeepLine(other[i])
    {
      KeepLineTrimmed(lines[i], other[i]);
    }
    SanitizeKeptAlike(lines, other);
  }

  /** Lines that are kept alike one by one are sanitised alike. */
  lemma {:induction false} SanitizeKeptAlike(lines: seq<string>, other: seq<string>)
    requires |lines| == |other|
    requires forall i :: 0 <= i < |lines| ==> KeepLine(lines[i]) == KeepLine(other[i])
    ensures Sanitize(lines) == Sanitize(other)
    decreases |lines|
  {
    if lines != [] {
      assert forall i :: 0 <= i < |lines| - 1 ==> lines[1..][i] == lines[i + 1] && other[1..][i] == other[i + 1];
      SanitizeKeptAlike(lines[1..], other[1..]);
    }
  }

  /** Two lines with the same trimmed text are kept alike. */
  lemma KeepLineTrimmed(a: string, b: string)
    requires Trim(a) == Trim(b)
    ensures KeepLine(a) == KeepLine(b)
  {
  }
}
