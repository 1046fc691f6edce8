/** The allowlist policy: a static map from program name to how that program
    is allowed, either unconditionally or only when its specialised validator
    accepts the segment. A name absent from the map is denied. */
module Allowlist {
  import opened Validators

  datatype Mode = Unconditional | Conditional(validate: string -> Validation)

  datatype Policy = Policy(allow: map<string, Mode>)

  /** The policy is usable: an empty allowlist is a configuration error. */
  predicate IsConfigured(p: Policy) { |p.allow| > 0 }

  /** The programs the agent may run with any arguments. `ls` must be among
      them and `shutdown` and `curl` must not; `git` and the other entries
      are this model's choice. */
  const UnrestrictedNames: set<string> :=
    {"ls", "git", "cat", "head", "tail", "wc", "grep", "cp", "mkdir", "pwd", "npm", "node", "ps", "sleep"}

  lemma UnrestrictedNamesFacts()
    ensures "ls" in UnrestrictedNames && "git" in UnrestrictedNames
    ensures "shutdown" !in UnrestrictedNames && "curl" !in UnrestrictedNames
    ensures "chmod" !in UnrestrictedNames && "rm" !in UnrestrictedNames && "pkill" !in UnrestrictedNames
  {
  }

  /** The programs allowed only through their validators. */
  function Restricted(): (m: map<string, Mode>)
    ensures m.Keys == {"chmod", "rm", "pkill"}
    ensures m["chmod"] == Conditional(ValidateChmod)
    ensures m["rm"] == Conditional(ValidateRm)
    ensures m["pkill"] == Conditional(ValidatePkill)
  {
    map["chmod" := Conditional(ValidateChmod), "rm" := Conditional(ValidateRm), "pkill" := Conditional(ValidatePkill)]
  }

  /** The allowlist the agent runs with. It is configured, holds `ls` and
      `git` unconditionally and neither `shutdown` nor `curl`, and routes
      chmod, rm and pkill through their validators. */
  function Default(): (p: Policy)
    ensures IsConfigured(p)
    ensures "ls" in p.allow && p.allow["ls"].Unconditional?
    ensures "git" in p.allow && p.allow["git"].Unconditional?
    ensures "shutdown" !in p.allow && "curl" !in p.allow
    ensures "chmod" in p.allow && p.allow["chmod"].Conditional? && p.allow["chmod"].validate == ValidateChmod
    ensures "rm" in p.allow && p.allow["rm"].Conditional? && p.allow["rm"].validate == ValidateRm
    ensures "pkill" in p.allow && p.allow["pkill"].Conditional? && p.allow["pkill"].validate == ValidatePkill
  {
    UnrestrictedNamesFacts();
    var p := Policy((map n | n in UnrestrictedNames :: Unconditional) + Restricted());
    assert "ls" in p.allow.Keys;
    p
  }
}

/** The decision hook: the single entry point called before every tool use. */
module SecurityHook {
  import opened Shell
  import opened Validators
  import opened Allowlist

  /** The tool-use record: the tool's name and its input fields. */
  datatype ToolCall = ToolCall(toolName: string, toolInput: map<string, string>)

  /** `Pass` is the empty result `{}`; `Block` carries the reason. */
  datatype Decision = Pass | Block(reason: string)

  const ParseReason := "Could not parse command for security validation"

  function NotAllowedReason(name: string): string
  {
    name + " is not in the allowed commands list"
  }

  /** The `command` input field, or the empty command when there is none. */
  function CommandOf(call: ToolCall): (c: string)
    ensures "command" in call.toolInput ==> c == call.toolInput["command"]
    ensures "command" !in call.toolInput ==> c == ""
  {
    if "command" in call.toolInput then call.toolInput["command"] else ""
  }

  /** The verdict of the policy on one invocation. */
  function Check(p: Policy, inv: Invocation): (v: Validation)
    ensures v.Allowed? ==> inv.program in p.allow
    ensures inv.program !in p.allow ==> v == Rejected(NotAllowedReason(inv.program))
    ensures inv.program in p.allow && p.allow[inv.program].Unconditional? ==> v == Allowed
    ensures inv.program in p.allow && p.allow[inv.program].Conditional? ==>
              v == p.allow[inv.program].validate(inv.segment)
  {
    if inv.program !in p.allow then Rejected(NotAllowedReason(inv.program))
    else match p.allow[inv.program]
      case Unconditional => Allowed
      case Conditional(validate) => validate(inv.segment)
  }

  /** Checks the invocations left to right and stops at the first refusal. */
  function CheckAll(p: Policy, invs: seq<Invocation>): (d: Decision)
    ensures d.Pass? <==> forall i :: 0 <= i < |invs| ==> Check(p, invs[i]).Allowed?
  {
    if invs == [] then Pass
    else match Check(p, invs[0])
      case Rejected(reason) => Block(reason)
      case Allowed =>
        assert forall i :: 1 <= i < |invs| ==> invs[i] == invs[1..][i - 1];
        CheckAll(p, invs[1..])
  }

  /** `reason` is that of the first invocation the policy refuses. */
  ghost predicate IsFirstRefusal(p: Policy, invs: seq<Invocation>, reason: string)
  {
    exists k :: 0 <= k < |invs| && (forall j :: 0 <= j < k ==> Check(p, invs[j]).Allowed?)
                                && Check(p, invs[k]) == Rejected(reason)
  }

  /** A block carries the reason of the first refused invocation. */
  lemma {:induction false} BlockIsFirstRefusal(p: Policy, invs: seq<Invocation>)
    requires CheckAll(p, invs).Block?
    ensures IsFirstRefusal(p, invs, CheckAll(p, invs).reason)
    decreases |invs|
  {
    if Check(p, invs[0]).Rejected? {
      assert Check(p, invs[0]) == Rejected(CheckAll(p, invs).reason);
    } else {
      var tail := invs[1..];
      BlockIsFirstRefusal(p, tail);
      var k :| 0 <= k < |tail| && (forall j :: 0 <= j < k ==> Check(p, tail[j]).Allowed?)
                               && Check(p, tail[k]) == Rejected(CheckAll(p, tail).reason);
      assert Check(p, invs[k + 1]) == Rejected(CheckAll(p, invs).reason);
      assert forall j :: 1 <= j < k + 1 ==> invs[j] == tail[j - 1];
    }
  }

  /** The verdict on one command line: it passes exactly when it parses and
      the policy allows every invocation; otherwise the block carries the
      parse reason or the reason of the first refusal. */
  function Evaluate(p: Policy, line: string): (d: Decision)
    ensures d.Pass? <==>
              && Invocations(line).Ok?
              && forall i :: 0 <= i < |Invocations(line).value| ==> Check(p, Invocations(line).value[i]).Allowed?
    ensures Invocations(line).Err? ==> d == Block(ParseReason)
    ensures Invocations(line).Ok? ==> d == CheckAll(p, Invocations(line).value)
    ensures Invocations(line).Ok? && d.Block? ==> IsFirstRefusal(p, Invocations(line).value, d.reason)
  {
    match Invocations(line)
    case Err(_) => Block(ParseReason)
    case Ok(invs) =>
      var d := CheckAll(p, invs);
      if d.Pass? then d else BlockIsFirstRefusal(p, invs); d
  }

  /** The pre-tool-use hook: only the Bash tool is gated, and a Bash call
      gets the verdict on its command. */
  function BashSecurityHook(p: Policy, call: ToolCall): (d: Decision)
    ensures call.toolName != "Bash" ==> d == Pass
    ensures call.toolName == "Bash" ==>
              (d.Pass? <==>
                 && Invocations(CommandOf(call)).Ok?
                 && forall i :: 0 <= i < |Invocations(CommandOf(call)).value| ==>
                      Check(p, Invocations(CommandOf(call)).value[i]).Allowed?)
    ensures call.toolName == "Bash" && Invocations(CommandOf(call)).Err? ==> d == Block(ParseReason)
    ensures call.toolName == "Bash" && Invocations(CommandOf(call)).Ok? && d.Block? ==>
              IsFirstRefusal(p, Invocations(CommandOf(call)).value, d.reason)
  {
    if call.toolName != "Bash" then Pass else Evaluate(p, CommandOf(call))
  }

  // ---------------------------------------------------------------------
  // Properties of the hook
  // ---------------------------------------------------------------------

  /** Every program of a line the hook lets through is in the allowlist, and
      every one that has a validator was accepted by it on its own segment. */
  lemma PassedProgramsAreAllowed(p: Policy, call: ToolCall)
    requires call.toolName == "Bash"
    requires BashSecurityHook(p, call) == Pass
    ensures ExtractCommands(CommandOf(call)).Ok?
    ensures forall n :: n in ExtractCommands(CommandOf(call)).value ==> n in p.allow
    ensures forall inv :: inv in Invocations(CommandOf(call)).value ==>
              inv.program in p.allow &&
              (p.allow[inv.program].Conditional? ==> p.allow[inv.program].validate(inv.segment).Allowed?)
  {
    var invs := Invocations(CommandOf(call)).value;
    forall n | n in ExtractCommands(CommandOf(call)).value ensures n in p.allow {
      var i :| 0 <= i < |Programs(invs)| && Programs(invs)[i] == n;
      assert Check(p, invs[i]).Allowed?;
    }
  }

  /** One refused program anywhere in a line blocks the whole line. */
  lemma RefusedAnywhereBlocks(p: Policy, line: string, k: nat)
    requires Invocations(line).Ok? && k < |Invocations(line).value|
    requires Check(p, Invocations(line).value[k]).Rejected?
    ensures Evaluate(p, line).Block?
  {
  }

  /** In particular a program missing from the allowlist; when every program
      before it passes, the block names it. */
  lemma UnlistedProgramBlocks(p: Policy, line: string, k: nat)
    requires Invocations(line).Ok? && k < |Invocations(line).value|
    requires Invocations(line).value[k].program !in p.allow
    ensures Evaluate(p, line).Block?
    ensures (forall j :: 0 <= j < k ==> Check(p, Invocations(line).value[j]).Allowed?) ==>
              Evaluate(p, line) == Block(NotAllowedReason(Invocations(line).value[k].program))
  {
    var invs := Invocations(line).value;
    RefusedAnywhereBlocks(p, line, k);
    if forall j :: 0 <= j < k ==> Check(p, invs[j]).Allowed? {
      BlockAtFirstRefusal(p, invs, k);
    }
  }

  /** Conversely, the first refused invocation decides the block and its reason. */
  lemma {:induction false} BlockAtFirstRefusal(p: Policy, invs: seq<Invocation>, k: nat)
    requires k < |invs|
    requires forall j :: 0 <= j < k ==> Check(p, invs[j]).Allowed?
    requires Check(p, invs[k]).Rejected?
    ensures CheckAll(p, invs) == Block(Check(p, invs[k]).reason)
    decreases k
  {
    if k > 0 {
      var tail := invs[1..];
      assert forall j :: 0 <= j < k - 1 ==> tail[j] == invs[j + 1];
      BlockAtFirstRefusal(p, tail, k - 1);
    }
  }

  lemma {:induction false} CheckAllAppend(p: Policy, xs: seq<Invocation>, ys: seq<Invocation>)
    ensures CheckAll(p, xs + ys) == if CheckAll(p, xs).Pass? then CheckAll(p, ys) else CheckAll(p, xs)
    decreases |xs|
  {
    if xs == [] {
      assert xs + ys == ys;
    } else {
      assert (xs + ys)[0] == xs[0] && (xs + ys)[1..] == xs[1..] + ys;
      CheckAllAppend(p, xs[1..], ys);
    }
  }

  /** Chained and piped lines are all-or-nothing: the joined line gets the
      left line's block if it has one and the right line's verdict otherwise. */
  lemma ChainIsSequential(p: Policy, a: string, c: char, b: string)
    requires IsConnector(c)
    requires Invocations(a).Ok? && Invocations(b).Ok?
    ensures Evaluate(p, a + [c] + b) == if Evaluate(p, a).Pass? then Evaluate(p, b) else Evaluate(p, a)
  {
    InvocationsAppend(a, c, b);
    CheckAllAppend(p, Invocations(a).value, Invocations(b).value);
  }

  /** Joining a line to another one with a connector cannot make a forbidden
      one of the two pass, provided the left line splits into segments
      (`Segments(a).Ok?`). */
  lemma ChainWithBlockedBlocks(p: Policy, a: string, c: char, b: string)
    requires IsConnector(c)
    requires Segments(a).Ok?
    requires Evaluate(p, a).Block? || Evaluate(p, b).Block?
    ensures Evaluate(p, a + [c] + b).Block?
  {
    InvocationsAppend(a, c, b);
    if Invocations(a).Ok? && Invocations(b).Ok? {
      ChainIsSequential(p, a, c, b);
    }
  }

  /** A blank command is a no-op and passes. */
  lemma BlankCommandPasses(p: Policy, line: string)
    requires IsBlanks(line)
    ensures Evaluate(p, line) == Pass
  {
    SegmentOfWords(line, [], "");
    assert line + JoinWords([]) + "" == line;
  }

  /** A Bash call without a `command` field runs nothing and passes. */
  lemma MissingCommandPasses(p: Policy, call: ToolCall)
    requires "command" !in call.toolInput
    ensures BashSecurityHook(p, call) == Pass
  {
    BlankCommandPasses(p, "");
  }

  /** A line refused by the extractor is blocked. */
  lemma UnsupportedBlocks(p: Policy, line: string, i: nat)
    requires i < |line| && IsUnsupported(line[i])
    ensures Evaluate(p, line) == Block(ParseReason)
  {
    UnsupportedIsRefused(line, i);
  }

  /** A single command of plain words passes exactly when its program is in
      the allowlist and, if it has a validator, that validator accepts it. */
  lemma SingleCommandVerdict(p: Policy, ws: seq<string>)
    requires forall j :: 0 <= j < |ws| ==> IsPlainWord(ws[j])
    requires NamesProgram(ws)
    ensures var name := Basename(ws[0]);
            Evaluate(p, JoinWords(ws)).Pass? <==>
              name in p.allow && (p.allow[name].Conditional? ==> p.allow[name].validate(JoinWords(ws)).Allowed?)
  {
    WordsInvocation(ws);
    SingleInvocationVerdict(p, JoinWords(ws), Invocation(Basename(ws[0]), JoinWords(ws)));
  }

  /** In particular, one whose program the policy allows unconditionally passes. */
  lemma UnconditionalPasses(p: Policy, ws: seq<string>)
    requires forall j :: 0 <= j < |ws| ==> IsPlainWord(ws[j])
    requires NamesProgram(ws)
    requires Basename(ws[0]) in p.allow && p.allow[Basename(ws[0])].Unconditional?
    ensures Evaluate(p, JoinWords(ws)) == Pass
  {
    SingleCommandVerdict(p, ws);
  }

  /** A command whose first word assigns a variable is blocked with the
      parse reason, whatever program follows it. */
  lemma AssignmentBlocks(p: Policy, ws: seq<string>)
    requires forall j :: 0 <= j < |ws| ==> IsPlainWord(ws[j])
    requires ws != [] && IsAssignment(ws[0])
    ensures Evaluate(p, JoinWords(ws)) == Block(ParseReason)
  {
    WordsInvocation(ws);
  }

  /** A command whose first word is a flag is blocked with the parse reason:
      the shell would run that word, so no later word stands for the program. */
  lemma LeadingFlagBlocks(p: Policy, ws: seq<string>)
    requires forall j :: 0 <= j < |ws| ==> IsPlainWord(ws[j])
    requires ws != [] && IsFlag(ws[0])
    ensures Evaluate(p, JoinWords(ws)) == Block(ParseReason)
  {
    WordsInvocation(ws);
  }

  lemma SingleInvocationVerdict(p: Policy, line: string, inv: Invocation)
    requires Invocations(line) == Ok([inv])
    ensures Evaluate(p, line).Pass? <==> Check(p, inv).Allowed?
  {
  }
}
