/** One identity file, any number of racing observers (src/worker/measurement_identity.py).

    A process takes one step at a time: a read of the shared file, the hard link, the exclusive open, one
    more prefix of its content. Steps of different processes interleave in any way. */
module Identity {
  import opened Base

  const ATTEMPTS := 20

  /** Where a read is made: before creating, or after losing the race to create. */
  datatype Phase =
    | Starting
    | Reading(attempt: nat, creating: bool)
    | Preparing
    | Linking
    | Opening
    | Writing(written: nat)
    | Returned(id: string)
    | Raised

  /** `identity` is the random ID the process would create; `requested` an explicit alias, if any. */
  datatype Process = Process(requested: string, identity: string, phase: Phase)

  datatype System = System(file: Option<string>, procs: seq<Process>)

  /** After a failed write the file is unlinked, and if that fails too it stays behind as it is. */
  datatype Step =
    | Begin(p: nat)
    | Read(p: nat)
    | WriteTemporary(p: nat)
    | TemporaryFails(p: nat)
    | Link(p: nat)
    | LinkUnsupported(p: nat)
    | OpenExclusive(p: nat)
    | OpenFails(p: nat)
    | WriteUpTo(p: nat, n: nat)
    | Close(p: nat)
    | WriteFails(p: nat, unlinked: bool)

  predicate IsSpace(c: char) {
    c == ' ' || '\t' <= c <= '\r' || '\U{001C}' <= c <= '\U{001F}' || c == '\U{0085}' || c == '\U{00A0}'
  }

  function TrimLeft(s: string): string {
    if s != [] && IsSpace(s[0]) then TrimLeft(s[1..]) else s
  }

  function TrimRight(s: string): string {
    if s != [] && IsSpace(s[|s| - 1]) then TrimRight(s[..|s| - 1]) else s
  }

  /** `str.strip()`. */
  function Strip(s: string): string {
    TrimLeft(TrimRight(s))
  }

  predicate IsAlnum(c: char) {
    'A' <= c <= 'Z' || 'a' <= c <= 'z' || '0' <= c <= '9'
  }

  /** The pattern of a measurement ID: 8 to 64 characters, the first alphanumeric. */
  predicate ValidId(s: string) {
    && 8 <= |s| <= 64 && IsAlnum(s[0])
    && forall i :: 1 <= i < |s| ==> IsAlnum(s[i]) || s[i] in "._-"
  }

  const CAPITALS := "ABCDEFGHIJKLMNOPQRSTUVWXYZ"
  const SMALL := "abcdefghijklmnopqrstuvwxyz"
  const DIGITS := "0123456789"

  predicate LetterOrDigit(c: char) {
    c in CAPITALS || c in SMALL || c in DIGITS
  }

  lemma AlphanumericTable(c: char)
    ensures IsAlnum(c) <==> LetterOrDigit(c)
  {
    assert forall k :: 0 <= k < 26 ==> CAPITALS[k] as int == 65 + k && SMALL[k] as int == 97 + k;
    assert forall k :: 0 <= k < 10 ==> DIGITS[k] as int == 48 + k;
    if 'A' <= c <= 'Z' {
      assert CAPITALS[c as int - 65] == c;
    } else if 'a' <= c <= 'z' {
      assert SMALL[c as int - 97] == c;
    } else if '0' <= c <= '9' {
      assert DIGITS[c as int - 48] == c;
    }
  }

  /** An ID has 8 to 64 characters: letters, digits, dots, underscores and hyphens, the first a letter or a digit. */
  lemma ValidIdIff(s: string)
    ensures ValidId(s) <==>
              && 8 <= |s| <= 64 && LetterOrDigit(s[0])
              && forall i :: 0 <= i < |s| ==> LetterOrDigit(s[i]) || s[i] in "._-"
  {
    if 8 <= |s| <= 64 {
      SameLetters(s);
    }
  }

  lemma SameLetters(s: string)
    ensures forall i :: 0 <= i < |s| ==> (IsAlnum(s[i]) <==> LetterOrDigit(s[i]))
  {
    forall i | 0 <= i < |s|
      ensures IsAlnum(s[i]) <==> LetterOrDigit(s[i])
    {
      AlphanumericTable(s[i]);
    }
  }

  /** The blanks: tab to carriage return, the four separators, space, next line and no-break space. */
  lemma BlanksAre(c: char)
    ensures IsSpace(c) <==>
              c in "\t\n\U{000B}\U{000C}\r\U{001C}\U{001D}\U{001E}\U{001F} \U{0085}\U{00A0}"
  {
  }

  function Validate(text: string): Phase {
    if ValidId(Strip(text)) then Returned(Strip(text)) else Raised
  }

  /** A file that a waiting reader accepts. */
  predicate Complete(text: string) {
    text != [] && Strip(text) != [] && text[|text| - 1] == '\n'
  }

  /** The outcome of one read attempt. */
  function ReadOnce(file: Option<string>, attempt: nat, creating: bool): Phase {
    match file
    case None => if creating then Preparing else Raised
    case Some(text) =>
      if Complete(text) then Validate(text)
      else if attempt + 1 < ATTEMPTS then Reading(attempt + 1, creating)
      else Raised
  }

  /** What a process that creates the file puts in it. */
  function Line(p: Process): string {
    p.identity + "\n"
  }

  predicate Enabled(s: System, step: Step) {
    step.p < |s.procs| &&
    var q := s.procs[step.p];
    match step
    case Begin(_) => q.phase.Starting?
    case Read(_) => q.phase.Reading?
    case WriteTemporary(_) => q.phase.Preparing?
    case TemporaryFails(_) => q.phase.Preparing?
    case Link(_) => q.phase.Linking?
    case LinkUnsupported(_) => q.phase.Linking?
    case OpenExclusive(_) => q.phase.Opening?
    case OpenFails(_) => q.phase.Opening?
    case WriteUpTo(_, n) => q.phase.Writing? && q.phase.written <= n <= |Line(q)|
    case Close(_) => q.phase.Writing? && q.phase.written == |Line(q)|
    case WriteFails(_, _) => q.phase.Writing?
  }

  function At(s: System, p: nat, phase: Phase): System
    requires p < |s.procs|
  {
    s.(procs := s.procs[p := s.procs[p].(phase := phase)])
  }

  function Apply(s: System, step: Step): System
    requires Enabled(s, step)
  {
    var q := s.procs[step.p];
    match step
    case Begin(p) => At(s, p, if q.requested != "" then Validate(q.requested) else Reading(0, true))
    case Read(p) => At(s, p, ReadOnce(s.file, q.phase.attempt, q.phase.creating))
    case WriteTemporary(p) => At(s, p, Linking)
    case TemporaryFails(p) => At(s, p, Raised)
    case Link(p) =>
      if s.file.None? then At(s.(file := Some(Line(q))), p, Returned(q.identity))
      else At(s, p, Reading(0, false))
    case LinkUnsupported(p) => At(s, p, Opening)
    case OpenExclusive(p) =>
      if s.file.None? then At(s.(file := Some("")), p, Writing(0))
      else At(s, p, Reading(0, false))
    case OpenFails(p) => At(s, p, Raised)
    case WriteUpTo(p, n) => At(s.(file := Some(Line(q)[..n])), p, Writing(n))
    case Close(p) => At(s, p, Returned(q.identity))
    case WriteFails(p, unlinked) => At(if unlinked then s.(file := None) else s, p, Raised)
  }

  ghost predicate Run(s: System, steps: seq<Step>)
    decreases |steps|
  {
    steps == [] || (Enabled(s, steps[0]) && Run(Apply(s, steps[0]), steps[1..]))
  }

  function Final(s: System, steps: seq<Step>): System
    requires Run(s, steps)
    decreases |steps|
  {
    if steps == [] then s else Final(Apply(s, steps[0]), steps[1..])
  }

  /** Every process is about to start and holds an ID of the form `observer-<hex>`. */
  ghost predicate Initial(s: System) {
    forall p :: 0 <= p < |s.procs| ==> s.procs[p].phase.Starting? && ValidId(s.procs[p].identity)
  }

  // ---------------------------------------------------------------- trimming

  /** A valid ID has no blanks, so reading its line back gives the ID. */
  lemma StripLine(id: string)
    requires ValidId(id)
    ensures Strip(id + "\n") == id && Complete(id + "\n")
    ensures forall i :: 0 <= i < |id| ==> id[i] != '\n'
  {
    var line := id + "\n";
    assert line[..|line| - 1] == id;
    assert !IsSpace(id[0]) && !IsSpace(id[|id| - 1]);
    assert TrimRight(line) == TrimRight(id) == id;
  }

  predicate AllSpace(s: string) {
    forall i :: 0 <= i < |s| ==> IsSpace(s[i])
  }

  /** Trimming takes away blanks at both ends, all of them, and nothing else. */
  lemma {:induction false} TrimLeftCuts(s: string) returns (cut: string)
    ensures s == cut + TrimLeft(s) && AllSpace(cut)
    ensures TrimLeft(s) != [] ==> !IsSpace(TrimLeft(s)[0])
  {
    if s != [] && IsSpace(s[0]) {
      var rest := TrimLeftCuts(s[1..]);
      cut := [s[0]] + rest;
      assert s == [s[0]] + s[1..];
    } else {
      cut := [];
      assert s == [] + s;
    }
  }

  lemma {:induction false} TrimRightCuts(s: string) returns (cut: string)
    ensures s == TrimRight(s) + cut && AllSpace(cut)
    ensures TrimRight(s) != [] ==> !IsSpace(TrimRight(s)[|TrimRight(s)| - 1])
  {
    if s != [] && IsSpace(s[|s| - 1]) {
      var rest := TrimRightCuts(s[..|s| - 1]);
      cut := rest + [s[|s| - 1]];
      assert s == s[..|s| - 1] + [s[|s| - 1]];
    } else {
      cut := [];
      assert s == s + [];
    }
  }

  lemma StripCuts(s: string) returns (left: string, right: string)
    ensures s == left + Strip(s) + right && AllSpace(left) && AllSpace(right)
    ensures Strip(s) != [] ==> !IsSpace(Strip(s)[0]) && !IsSpace(Strip(s)[|Strip(s)| - 1])
  {
    right := TrimRightCuts(s);
    left := TrimLeftCuts(TrimRight(s));
    assert Strip(s) != [] ==> Strip(s)[|Strip(s)| - 1] == TrimRight(s)[|TrimRight(s)| - 1];
  }

  function PhaseOf(s: System, p: nat): Phase {
    if p < |s.procs| then s.procs[p].phase else Raised
  }

  /** k reads of one process in a row. */
  function Reads(p: nat, k: nat): seq<Step> {
    if k == 0 then [] else [Read(p)] + Reads(p, k - 1)
  }

  /** A reader that finds the file incomplete tries twenty times in all, and then gives up. */
  lemma {:induction false} GivesUpAfterTwentyReads(s: System, p: nat, k: nat)
    requires p < |s.procs| && s.procs[p].phase.Reading? && s.procs[p].phase.attempt + k == 20 && k > 0
    requires s.file.Some? && !Complete(s.file.value)
    ensures Run(s, Reads(p, k)) && PhaseOf(Final(s, Reads(p, k)), p) == Raised
    ensures Run(s, Reads(p, k - 1)) && PhaseOf(Final(s, Reads(p, k - 1)), p).Reading?
    decreases k
  {
    var next := Apply(s, Read(p));
    assert Reads(p, 0) == [] && Reads(p, k)[0] == Read(p) && Reads(p, k)[1..] == Reads(p, k - 1);
    if k > 1 {
      GivesUpAfterTwentyReads(next, p, k - 1);
      assert Reads(p, k - 1)[0] == Read(p) && Reads(p, k - 1)[1..] == Reads(p, k - 2);
    }
  }

  // ---------------------------------------------------------------- the invariant

  lemma LineIsLine(q: Process)
    requires ValidId(q.identity)
    ensures IsLine(Line(q)) && Line(q)[..|Line(q)|] == Line(q) && Line(q)[..0] == ""
  {
    assert Line(q)[..|Line(q)| - 1] == q.identity;
  }

  predicate IsLine(text: string) {
    text != [] && text[|text| - 1] == '\n' && ValidId(text[..|text| - 1])
  }

  /** The identity the file holds, or would hold if its creator wrote it all. */
  ghost predicate Agreed(s: System, whole: Option<string>) {
    && (forall p :: 0 <= p < |s.procs| ==> ValidId(s.procs[p].identity))
    && (s.file.None? <==> whole.None?)
    && (whole.Some? ==> s.file.value <= whole.value)
    && (whole.Some? && s.file.value != whole.value ==> IsLine(whole.value))
    && (forall p :: 0 <= p < |s.procs| ==> Consistent(s.file, whole, s.procs[p]))
    && (forall p, q :: 0 <= p < q < |s.procs| ==> !(s.procs[p].phase.Writing? && s.procs[q].phase.Writing?))
  }

  ghost predicate Consistent(file: Option<string>, whole: Option<string>, q: Process) {
    match q.phase
    case Writing(n) => n <= |Line(q)| && whole == Some(Line(q)) && file == Some(Line(q)[..n])
    case Returned(id) => q.requested == "" ==> file.Some? && file == whole && id == Strip(whole.value)
    case Starting => true
    case Raised => true
    case _ => q.requested == ""
  }

  /** A prefix of a line that a waiting reader accepts is the whole line. */
  lemma AcceptedIsWhole(id: string, text: string)
    requires ValidId(id) && text <= id + "\n" && Complete(text)
    ensures text == id + "\n"
  {
    StripLine(id);
    assert forall i :: 0 <= i < |text| && i < |id| ==> text[i] == id[i];
  }

  function NextWhole(s: System, whole: Option<string>, step: Step): Option<string>
    requires Enabled(s, step)
  {
    if s.file.None? && (step.Link? || step.OpenExclusive?) then Some(Line(s.procs[step.p]))
    else if step.WriteFails? && step.unlinked then None
    else whole
  }

  /** If the step is a failed write whose file is removed, at least `m` characters of the line were still missing
      from it. */
  predicate FailsEarly(s: System, step: Step, m: nat)
    requires Enabled(s, step)
  {
    step.WriteFails? && step.unlinked ==> m == 0 || s.procs[step.p].phase.written + m <= |Line(s.procs[step.p])|
  }

  /** A step that leaves the file alone and moves one process to a phase consistent with it. */
  lemma MoveOne(s: System, whole: Option<string>, p: nat, phase: Phase)
    requires Agreed(s, whole) && p < |s.procs| && !s.procs[p].phase.Writing? && !phase.Writing?
    requires Consistent(s.file, whole, s.procs[p].(phase := phase))
    ensures Agreed(At(s, p, phase), whole)
  {
  }

  lemma ReadStep(s: System, whole: Option<string>, p: nat)
    requires Agreed(s, whole) && p < |s.procs| && s.procs[p].phase.Reading?
    ensures var q := s.procs[p];
            Consistent(s.file, whole, q.(phase := ReadOnce(s.file, q.phase.attempt, q.phase.creating)))
  {
    if s.file.Some? && Complete(s.file.value) && s.file != whole {
      var id := whole.value[..|whole.value| - 1];
      assert whole.value == id + "\n";
      AcceptedIsWhole(id, s.file.value);
    }
  }

  lemma CreateStep(s: System, whole: Option<string>, step: Step)
    requires Agreed(s, whole) && Enabled(s, step) && s.file.None? && (step.Link? || step.OpenExclusive?)
    ensures Agreed(Apply(s, step), NextWhole(s, whole, step))
  {
    var t, q := Apply(s, step), s.procs[step.p];
    StripLine(q.identity);
    LineIsLine(q);
    forall p | 0 <= p < |s.procs|
      ensures Consistent(t.file, NextWhole(s, whole, step), t.procs[p])
    {
      assert Consistent(s.file, whole, s.procs[p]);
    }
  }

  lemma WriterStep(s: System, whole: Option<string>, step: Step)
    requires Agreed(s, whole) && Enabled(s, step) && (step.WriteUpTo? || step.Close?)
    ensures Agreed(Apply(s, step), whole)
  {
    var t, q := Apply(s, step), s.procs[step.p];
    assert Consistent(s.file, whole, q);
    StripLine(q.identity);
    LineIsLine(q);
    forall p | 0 <= p < |s.procs|
      ensures Consistent(t.file, whole, t.procs[p])
    {
      assert Consistent(s.file, whole, s.procs[p]);
      if p != step.p && s.procs[p].phase.Returned? && s.procs[p].requested == "" {
        assert |s.file.value| == |Line(q)|;
      }
    }
  }

  /** A write that fails while part of the line is missing takes back a file that nobody has accepted; one whose file
      stays behind changes nothing that anybody reads. */
  lemma FailStep(s: System, whole: Option<string>, step: Step)
    requires Agreed(s, whole) && Enabled(s, step) && step.WriteFails? && FailsEarly(s, step, 1)
    ensures Agreed(Apply(s, step), NextWhole(s, whole, step))
  {
    var t, q := Apply(s, step), s.procs[step.p];
    assert Consistent(s.file, whole, q);
    assert step.unlinked ==> |Line(q)[..q.phase.written]| < |Line(q)|;
    forall p | 0 <= p < |s.procs|
      ensures Consistent(t.file, NextWhole(s, whole, step), t.procs[p])
    {
      assert Consistent(s.file, whole, s.procs[p]);
    }
  }

  /** Every step keeps the invariant, unless a write fails after its whole line became visible and its file is
      removed; and apart from an early failure, which starts over, it keeps the agreed content. */
  lemma StepKeepsAgreement(s: System, whole: Option<string>, step: Step)
    requires Agreed(s, whole) && Enabled(s, step) && FailsEarly(s, step, 1)
    ensures Agreed(Apply(s, step), NextWhole(s, whole, step))
    ensures whole.Some? && !(step.WriteFails? && step.unlinked) ==> NextWhole(s, whole, step) == whole
  {
    var q := s.procs[step.p];
    assert Consistent(s.file, whole, q);
    if step.WriteFails? {
      FailStep(s, whole, step);
    } else if s.file.None? && (step.Link? || step.OpenExclusive?) {
      CreateStep(s, whole, step);
    } else if step.WriteUpTo? || step.Close? {
      WriterStep(s, whole, step);
    } else {
      if step.Read? {
        ReadStep(s, whole, step.p);
      }
      MoveOne(s, whole, step.p, Apply(s, step).procs[step.p].phase);
    }
  }

  /** Every failed write of the run whose file is removed fails with at least `m` characters of its line missing. */
  ghost predicate OnlyEarlyFailures(s: System, steps: seq<Step>, m: nat)
    requires Run(s, steps)
    decreases |steps|
  {
    steps == [] || (FailsEarly(s, steps[0], m) && OnlyEarlyFailures(Apply(s, steps[0]), steps[1..], m))
  }

  lemma {:induction false} RunKeepsAgreement(s: System, whole: Option<string>, steps: seq<Step>)
    returns (end: Option<string>)
    requires Agreed(s, whole) && Run(s, steps) && OnlyEarlyFailures(s, steps, 1)
    ensures Agreed(Final(s, steps), end)
    decreases |steps|
  {
    if steps == [] {
      return whole;
    }
    StepKeepsAgreement(s, whole, steps[0]);
    end := RunKeepsAgreement(Apply(s, steps[0]), NextWhole(s, whole, steps[0]), steps[1..]);
  }

  // ---------------------------------------------------------------- aliases

  /** The processes that were given an alias. */
  ghost predicate Aliases(s: System, aliased: set<nat>) {
    forall p: nat :: p in aliased <==> p < |s.procs| && s.procs[p].requested != ""
  }

  /** The steps of all processes but the aliased ones. */
  function Without(steps: seq<Step>, aliased: set<nat>): seq<Step> {
    if steps == [] then []
    else (if steps[0].p in aliased then [] else [steps[0]]) + Without(steps[1..], aliased)
  }

  /** `t` differs from `s` at most in how far the aliased processes are, and those only return or fail. */
  ghost predicate SameOutside(s: System, t: System, aliased: set<nat>) {
    && |s.procs| == |t.procs| && s.file == t.file
    && (forall p :: 0 <= p < |s.procs| && p !in aliased ==> t.procs[p] == s.procs[p])
    && (forall p :: 0 <= p < |s.procs| && p in aliased ==> Aside(s.procs[p]))
  }

  /** Not started, or already back with the trimmed alias or an error. */
  predicate Aside(q: Process) {
    q.phase.Starting? || q.phase == Validate(q.requested)
  }

  lemma AliasStep(s: System, t: System, aliased: set<nat>, step: Step)
    requires Aliases(s, aliased) && SameOutside(s, t, aliased) && Enabled(s, step) && step.p in aliased
    ensures Apply(s, step).file == s.file
    ensures Aliases(Apply(s, step), aliased) && SameOutside(Apply(s, step), t, aliased)
  {
    assert Aside(s.procs[step.p]);
  }

  lemma OtherStep(s: System, t: System, aliased: set<nat>, step: Step)
    requires Aliases(s, aliased) && SameOutside(s, t, aliased) && Enabled(s, step) && step.p !in aliased
    ensures Enabled(t, step)
    ensures Aliases(Apply(s, step), aliased) && SameOutside(Apply(s, step), Apply(t, step), aliased)
  {
  }

  lemma {:induction false} RunWithoutAliases(s: System, t: System, aliased: set<nat>, steps: seq<Step>)
    requires Aliases(s, aliased) && SameOutside(s, t, aliased) && Run(s, steps)
    ensures Run(t, Without(steps, aliased))
    ensures SameOutside(Final(s, steps), Final(t, Without(steps, aliased)), aliased)
    decreases |steps|
  {
    if steps == [] {
      return;
    }
    var rest := Without(steps[1..], aliased);
    if steps[0].p in aliased {
      AliasStep(s, t, aliased, steps[0]);
      RunWithoutAliases(Apply(s, steps[0]), t, aliased, steps[1..]);
      assert Without(steps, aliased) == rest;
    } else {
      OtherStep(s, t, aliased, steps[0]);
      RunWithoutAliases(Apply(s, steps[0]), Apply(t, steps[0]), aliased, steps[1..]);
      assert Without(steps, aliased)[1..] == rest;
    }
  }

  /** Aliases stay out of the protocol: taking all their steps out of any run leaves a run with the same file and
      the same outcome for every other process, and they themselves return their trimmed alias or fail. */
  lemma AliasesTakeNoPart(s: System, steps: seq<Step>, aliased: set<nat>)
    requires Initial(s) && Aliases(s, aliased) && Run(s, steps)
    ensures Run(s, Without(steps, aliased))
    ensures SameOutside(Final(s, steps), Final(s, Without(steps, aliased)), aliased)
  {
    RunWithoutAliases(s, s, aliased, steps);
  }

  /** All processes that are back without an alias have the same ID. */
  ghost predicate SameIds(procs: seq<Process>) {
    forall p, q :: 0 <= p < |procs| && 0 <= q < |procs| && Back(procs[p]) && Back(procs[q]) ==>
      procs[p].phase.id == procs[q].phase.id
  }

  /** Returned an ID that it found or created, not an alias. */
  predicate Back(q: Process) {
    q.requested == "" && q.phase.Returned?
  }

  /** All processes that return without an alias return the same ID, and it is the one in the file. */
  lemma AllReturnTheSameId(s: System, steps: seq<Step>)
    requires Initial(s) && Run(s, steps) && OnlyEarlyFailures(s, steps, 1)
    ensures SameIds(Final(s, steps).procs)
    ensures var end := Final(s, steps);
            forall p :: 0 <= p < |end.procs| && Back(end.procs[p]) ==>
              end.file.Some? && end.procs[p].phase.id == Strip(end.file.value)
  {
    var whole := RunKeepsAgreement(s, s.file, steps);
    var end := Final(s, steps);
    forall p | 0 <= p < |end.procs| && Back(end.procs[p])
      ensures end.file.Some? && end.procs[p].phase.id == Strip(end.file.value)
    {
      assert Consistent(end.file, whole, end.procs[p]);
    }
  }

  // ---------------------------------------------------------------- which failed writes break agreement

  /** The steps of one process that creates the file without hard links, up to the last byte written. */
  function CreateExclusively(p: nat): seq<Step> {
    [Begin(p), Read(p), WriteTemporary(p), LinkUnsupported(p), OpenExclusive(p)]
  }

  lemma {:induction false} RunConcat(s: System, a: seq<Step>, b: seq<Step>)
    requires Run(s, a) && Run(Final(s, a), b)
    ensures Run(s, a + b) && Final(s, a + b) == Final(Final(s, a), b)
    decreases |a|
  {
    if a == [] {
      assert a + b == b;
    } else {
      assert (a + b)[0] == a[0] && (a + b)[1..] == a[1..] + b;
      RunConcat(Apply(s, a[0]), a[1..], b);
    }
  }

  lemma Creates(s: System, p: nat)
    requires p < |s.procs| && s.procs[p].phase.Starting? && s.procs[p].requested == "" && s.file.None?
    ensures Run(s, CreateExclusively(p))
    ensures Final(s, CreateExclusively(p)) == System(Some(""), s.procs[p := s.procs[p].(phase := Writing(0))])
  {
    var s1 := Apply(s, Begin(p));
    var s2 := Apply(s1, Read(p));
    var s3 := Apply(s2, WriteTemporary(p));
    var s4 := Apply(s3, LinkUnsupported(p));
    var s5 := Apply(s4, OpenExclusive(p));
    assert s5.procs == s.procs[p := s.procs[p].(phase := Writing(0))];
    OneStep(s4, OpenExclusive(p), []);
    OneStep(s3, LinkUnsupported(p), [OpenExclusive(p)]);
    OneStep(s2, WriteTemporary(p), [LinkUnsupported(p), OpenExclusive(p)]);
    OneStep(s1, Read(p), [WriteTemporary(p), LinkUnsupported(p), OpenExclusive(p)]);
    OneStep(s, Begin(p), [Read(p), WriteTemporary(p), LinkUnsupported(p), OpenExclusive(p)]);
  }

  lemma OneStep(s: System, t: Step, rest: seq<Step>)
    requires Enabled(s, t) && Run(Apply(s, t), rest)
    ensures Run(s, [t] + rest) && Final(s, [t] + rest) == Final(Apply(s, t), rest)
  {
    assert ([t] + rest)[1..] == rest;
  }

  /** From an absent file a fresh process creates it without hard links and returns its own ID. */
  lemma CreatesAndReturns(s: System, p: nat) returns (steps: seq<Step>)
    requires p < |s.procs| && s.procs[p].phase.Starting? && s.procs[p].requested == "" && s.file.None?
    ensures Run(s, steps)
    ensures Final(s, steps)
         == System(Some(Line(s.procs[p])), s.procs[p := s.procs[p].(phase := Returned(s.procs[p].identity))])
  {
    var line := Line(s.procs[p]);
    Creates(s, p);
    var s1 := Final(s, CreateExclusively(p));
    var s2 := Apply(s1, WriteUpTo(p, |line|));
    assert line[..|line|] == line;
    OneStep(s2, Close(p), []);
    OneStep(s1, WriteUpTo(p, |line|), [Close(p)]);
    var last := [WriteUpTo(p, |line|)] + [Close(p)];
    RunConcat(s, CreateExclusively(p), last);
    steps := CreateExclusively(p) + last;
    assert Apply(s2, Close(p)).procs == s.procs[p := s.procs[p].(phase := Returned(s.procs[p].identity))];
  }

  /** Process p writes its whole line, process q reads it, then the flush of p fails and the file is unlinked. */
  lemma ReadThenUnlinked(s: System, p: nat, q: nat) returns (steps: seq<Step>)
    requires p < |s.procs| && q < |s.procs| && p != q && s.file.None?
    requires s.procs[p].phase.Starting? && s.procs[p].requested == "" && ValidId(s.procs[p].identity)
    requires s.procs[q].phase.Starting? && s.procs[q].requested == ""
    ensures Run(s, steps)
    ensures Final(s, steps)
         == System(None, s.procs[p := s.procs[p].(phase := Raised)]
                                [q := s.procs[q].(phase := Returned(s.procs[p].identity))])
  {
    var line := Line(s.procs[p]);
    StripLine(s.procs[p].identity);
    Creates(s, p);
    var s1 := Final(s, CreateExclusively(p));
    var s2 := Apply(s1, WriteUpTo(p, |line|));
    assert line[..|line|] == line;
    var s3 := Apply(s2, Begin(q));
    var s4 := Apply(s3, Read(q));
    OneStep(s4, WriteFails(p, true), []);
    OneStep(s3, Read(q), [WriteFails(p, true)]);
    OneStep(s2, Begin(q), [Read(q)] + [WriteFails(p, true)]);
    OneStep(s1, WriteUpTo(p, |line|), [Begin(q)] + ([Read(q)] + [WriteFails(p, true)]));
    var mid := [WriteUpTo(p, |line|)] + ([Begin(q)] + ([Read(q)] + [WriteFails(p, true)]));
    RunConcat(s, CreateExclusively(p), mid);
    steps := CreateExclusively(p) + mid;
    assert Apply(s4, WriteFails(p, true)).procs
        == s.procs[p := s.procs[p].(phase := Raised)][q := s.procs[q].(phase := Returned(s.procs[p].identity))];
  }

  /** A single write that fails just after its whole line became visible lets two processes return different IDs. */
  lemma LateFailureBreaksAgreement(s: System, p: nat, q: nat, r: nat) returns (steps: seq<Step>)
    requires Initial(s) && s.file.None? && ThreeObservers(s, p, q, r)
    ensures Run(s, steps) && !SameIds(Final(s, steps).procs)
  {
    var a := ReadThenUnlinked(s, p, q);
    var mid := Final(s, a);
    var b := CreatesAndReturns(mid, r);
    RunConcat(s, a, b);
    steps := a + b;
    var procs := Final(s, steps).procs;
    assert procs[q].phase == Returned(s.procs[p].identity) && procs[r].phase == Returned(s.procs[r].identity);
  }

  /** Three processes without an alias, two of which would create different IDs. */
  ghost predicate ThreeObservers(s: System, p: nat, q: nat, r: nat) {
    && p < |s.procs| && q < |s.procs| && r < |s.procs| && p != q && q != r && p != r
    && s.procs[p].identity != s.procs[r].identity
    && s.procs[p].requested == s.procs[q].requested == s.procs[r].requested == ""
  }

  lemma {:induction false} AnyFailure(s: System, steps: seq<Step>)
    requires Run(s, steps)
    ensures OnlyEarlyFailures(s, steps, 0)
    decreases |steps|
  {
    if steps != [] {
      AnyFailure(Apply(s, steps[0]), steps[1..]);
    }
  }

  lemma {:induction false} EarlierIsEarly(s: System, steps: seq<Step>, m: nat)
    requires Run(s, steps) && m > 0 && OnlyEarlyFailures(s, steps, m)
    ensures OnlyEarlyFailures(s, steps, 1)
    decreases |steps|
  {
    if steps != [] {
      EarlierIsEarly(Apply(s, steps[0]), steps[1..], m);
    }
  }

  /** The condition is exact: agreement holds in every run in which at least m characters are missing from each file
      that a failed write removes, if and only if m is positive. */
  lemma AgreementIffFailuresAreEarly(s: System, p: nat, q: nat, r: nat, m: nat)
    requires Initial(s) && s.file.None? && ThreeObservers(s, p, q, r)
    ensures (forall steps :: Run(s, steps) && OnlyEarlyFailures(s, steps, m) ==> SameIds(Final(s, steps).procs))
            <==> m > 0
  {
    if m == 0 {
      var steps := LateFailureBreaksAgreement(s, p, q, r);
      AnyFailure(s, steps);
    } else {
      forall steps | Run(s, steps) && OnlyEarlyFailures(s, steps, m)
        ensures SameIds(Final(s, steps).procs)
      {
        EarlierIsEarly(s, steps, m);
        AllReturnTheSameId(s, steps);
      }
    }
  }
}
