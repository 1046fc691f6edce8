/** The specialised validators: programs that are allowlisted only under a
    restricted shape of arguments. Each takes the full text of one segment,
    tokenizes it as the extractor does, and looks at the tokens after the
    command token. */
module Validators {
  import opened Shell

  /** The `(allowed, reason)` pair: a reason exactly when the segment is refused. */
  datatype Validation = Allowed | Rejected(reason: string)

  /** `sub` occurs somewhere in `s`. */
  ghost predicate Contains(s: string, sub: string)
  {
    exists i :: OccursAt(s, sub, i)
  }

  predicate OccursAt(s: string, sub: string, i: int)
  {
    0 <= i <= |s| - |sub| && s[i..i + |sub|] == sub
  }

  lemma ContainsMiddle(x: string, sub: string, y: string)
    ensures Contains(x + sub + y, sub)
  {
    var s := x + sub + y;
    assert s[|x|..|x| + |sub|] == sub;
    assert OccursAt(s, sub, |x|);
  }

  /** The arguments of a segment: the tokens after its command token. */
  function ArgumentsOf(segment: string): (r: Result<seq<string>>)
    ensures r.Ok? <==> Tokens(segment).Ok? && Tokens(segment).value != []
    ensures r.Ok? ==> Tokens(segment).value == Tokens(segment).value[..1] + r.value
  {
    match Tokens(segment)
    case Err(e) => Err(e)
    case Ok(ts) =>
      if ts == [] then Err(MissingProgram(segment)) else Ok(ts[1..])
  }

  lemma ArgumentsOfTokens(segment: string, ts: seq<string>)
    requires Tokens(segment) == Ok(ts)
    requires ts != []
    ensures ArgumentsOf(segment) == Ok(ts[1..])
  {
  }

  /** The arguments of a command made of plain words are the words after its
      program. */
  lemma ArgumentsOfWords(pre: string, ws: seq<string>, post: string)
    requires forall j :: 0 <= j < |ws| ==> IsPlainWord(ws[j])
    requires IsBlanks(pre) && IsBlanks(post)
    requires ws != []
    ensures ArgumentsOf(pre + JoinWords(ws) + post) == Ok(ws[1..])
  {
    TokensOfWords(pre, ws, post);
    ArgumentsOfTokens(pre + JoinWords(ws) + post, ws);
  }

  // ---------------------------------------------------------------------
  // chmod
  // ---------------------------------------------------------------------

  predicate IsWho(c: char) { c == 'u' || c == 'g' || c == 'o' || c == 'a' }

  /** A mode that adds execute permission and nothing else: `[ugoa]*+x`. */
  predicate IsAddExecute(m: string)
  {
    |m| >= 2 && m[|m| - 2..] == "+x" && forall i :: 0 <= i < |m| - 2 ==> IsWho(m[i])
  }

  /** The matcher the chmod rule runs on the mode token. */
  function MatchAddExecute(m: string): (b: bool)
    ensures b <==> IsAddExecute(m)
  {
    if m == "+x" then true
    else if m == [] then false
    else
      AddExecuteStep(m);
      IsWho(m[0]) && MatchAddExecute(m[1..])
  }

  /** Past its first character, a mode other than `+x` adds execute only if
      that character names a class and the rest adds execute only. */
  lemma AddExecuteStep(m: string)
    requires m != [] && m != "+x"
    ensures IsAddExecute(m) <==> IsWho(m[0]) && IsAddExecute(m[1..])
  {
    if |m| >= 3 {
      assert m[1..][|m| - 3..] == m[|m| - 2..];
      assert forall i :: 0 <= i < |m| - 3 ==> m[1..][i] == m[i + 1];
    }
  }

  const ChmodModeReason := "chmod only allowed with +x mode, got: "

  /** The chmod rule on the arguments: no flag at all, a mode and at least
      one file, the mode adding execute only. */
  function ChmodArguments(args: seq<string>): (v: Validation)
    ensures v.Allowed? <==>
              && (forall i :: 0 <= i < |args| ==> !IsFlag(args[i]))
              && |args| >= 2
              && IsAddExecute(args[0])
    ensures v.Rejected? && |args| >= 2 && (forall i :: 0 <= i < |args| ==> !IsFlag(args[i])) ==>
              v.reason == ChmodModeReason + args[0] && Contains(v.reason, "+x")
    ensures v.Rejected? ==> v.reason != []
  {
    if exists i :: 0 <= i < |args| && IsFlag(args[i]) then Rejected("chmod flags are not allowed")
    else if |args| == 0 then Rejected("chmod requires a mode")
    else if |args| == 1 then Rejected("chmod requires at least one file")
    else if !MatchAddExecute(args[0]) then
      ContainsMiddle("chmod only allowed with ", "+x", " mode, got: " + args[0]);
      assert ChmodModeReason + args[0] == "chmod only allowed with " + "+x" + (" mode, got: " + args[0]);
      Rejected(ChmodModeReason + args[0])
    else Allowed
  }

  function ValidateChmod(segment: string): (v: Validation)
    ensures v.Allowed? <==> ArgumentsOf(segment).Ok? && ChmodArguments(ArgumentsOf(segment).value).Allowed?
    ensures v.Rejected? ==> v.reason != []
  {
    match ArgumentsOf(segment)
    case Err(_) => Rejected("Could not parse chmod command")
    case Ok(args) => ChmodArguments(args)
  }

  // ---------------------------------------------------------------------
  // rm
  // ---------------------------------------------------------------------

  /** A cluster of one-letter options such as `-rf`. */
  predicate IsShortOptions(t: string) { |t| >= 2 && t[0] == '-' && t[1] != '-' }

  /** A long option such as `--force`; it may be abbreviated to any prefix. */
  predicate IsLongOption(t: string) { |t| >= 3 && t[..2] == "--" }

  predicate IsPrefixOf(p: string, s: string) { |p| <= |s| && s[..|p|] == p }

  predicate IsRecursiveFlag(t: string)
  {
    || (IsShortOptions(t) && ('r' in t || 'R' in t))
    || (IsLongOption(t) && IsPrefixOf(t[2..], "recursive"))
  }

  predicate IsForceFlag(t: string)
  {
    || (IsShortOptions(t) && 'f' in t)
    || (IsLongOption(t) && IsPrefixOf(t[2..], "force"))
  }

  const RmRecursiveReason := "rm -r (recursive delete) is not allowed"
  const RmForceReason := "rm -f (force delete) is not allowed"

  /** The rm rule on the arguments: the first recursive or force flag refuses,
      naming which of the two it is. */
  function RmArguments(args: seq<string>): (v: Validation)
    ensures v.Allowed? <==> forall i :: 0 <= i < |args| ==> !IsRecursiveFlag(args[i]) && !IsForceFlag(args[i])
    ensures v.Rejected? ==>
              || (v.reason == RmRecursiveReason && exists i :: 0 <= i < |args| && IsRecursiveFlag(args[i]))
              || (v.reason == RmForceReason && exists i :: 0 <= i < |args| && IsForceFlag(args[i]))
    ensures v.Rejected? ==> Contains(v.reason, "not allowed")
  {
    if args == [] then Allowed
    else if IsRecursiveFlag(args[0]) then
      ContainsMiddle("rm -r (recursive delete) is ", "not allowed", "");
      assert RmRecursiveReason == "rm -r (recursive delete) is " + "not allowed" + "";
      Rejected(RmRecursiveReason)
    else if IsForceFlag(args[0]) then
      ContainsMiddle("rm -f (force delete) is ", "not allowed", "");
      assert RmForceReason == "rm -f (force delete) is " + "not allowed" + "";
      Rejected(RmForceReason)
    else
      var v := RmArguments(args[1..]);
      assert forall i :: 1 <= i < |args| ==> args[i] == args[1..][i - 1];
      v
  }

  function ValidateRm(segment: string): (v: Validation)
    ensures v.Allowed? <==> ArgumentsOf(segment).Ok? && RmArguments(ArgumentsOf(segment).value).Allowed?
    ensures v.Rejected? ==> v.reason != []
  {
    match ArgumentsOf(segment)
    case Err(_) => Rejected("Could not parse rm command")
    case Ok(args) => RmArguments(args)
  }

  // ---------------------------------------------------------------------
  // pkill
  // ---------------------------------------------------------------------

  /** The processes the agent may terminate: those of the development
      servers it starts itself. */
  const DevProcesses: set<string> := {"node", "npm", "npx", "vite", "next"}

  const PkillReason := "pkill " + "only allowed for" + " dev processes (node, npm, npx, vite, next), not: "

  /** The text of `t` up to its first blank: the process name of a pattern
      such as `node server.js`. */
  function FirstWord(t: string): (w: string)
    ensures |w| <= |t| && t[..|w|] == w
    ensures forall i :: 0 <= i < |w| ==> !IsBlank(w[i])
    ensures |w| < |t| ==> IsBlank(t[|w|])
  {
    if t == [] || IsBlank(t[0]) then [] else [t[0]] + FirstWord(t[1..])
  }

  /** The process name of a word followed by a blank, or by nothing, is that word. */
  lemma {:induction false} FirstWordOf(w: string, rest: string)
    requires forall i :: 0 <= i < |w| ==> !IsBlank(w[i])
    requires rest == [] || IsBlank(rest[0])
    ensures FirstWord(w + rest) == w
    decreases |w|
  {
    if w == [] {
      assert w + rest == rest;
    } else {
      assert (w + rest)[1..] == w[1..] + rest;
      FirstWordOf(w[1..], rest);
    }
  }

  /** The non-flag arguments, in order. */
  function NonFlags(args: seq<string>): (targets: seq<string>)
    ensures forall i :: 0 <= i < |targets| ==> !IsFlag(targets[i]) && targets[i] in args
    ensures forall i :: 0 <= i < |args| && !IsFlag(args[i]) ==> args[i] in targets
  {
    if args == [] then []
    else if IsFlag(args[0]) then NonFlags(args[1..])
    else [args[0]] + NonFlags(args[1..])
  }

  /** A character that makes a pkill pattern, an extended regular expression,
      match more than its literal text: alternation, repetition, bracket
      expressions, anchors, grouping and escapes. The `.` of
      `node server.js` is not among them. */
  predicate IsRegexOperator(c: char)
  {
    || c == '|' || c == '*' || c == '+' || c == '?' || c == '[' || c == ']' || c == '{' || c == '}'
    || c == '(' || c == ')' || c == '^' || c == '$' || c == '\\'
  }

  predicate IsLiteralPattern(t: string) { forall i :: 0 <= i < |t| ==> !IsRegexOperator(t[i]) }

  /** A target pkill may be given: a literal pattern whose process name is
      one of the development processes. */
  predicate IsAllowedTarget(t: string) { IsLiteralPattern(t) && FirstWord(t) in DevProcesses }

  /** What a refusal names: the process name of a literal pattern, the whole
      pattern otherwise. */
  function Offender(t: string): string { if IsLiteralPattern(t) then FirstWord(t) else t }

  function PkillTargets(targets: seq<string>): (v: Validation)
    ensures v.Allowed? <==> forall i :: 0 <= i < |targets| ==> IsAllowedTarget(targets[i])
    ensures v.Rejected? ==>
              && Contains(v.reason, "only allowed for")
              && exists i :: 0 <= i < |targets| && !IsAllowedTarget(targets[i])
                             && v.reason == PkillReason + Offender(targets[i])
  {
    if targets == [] then Allowed
    else if !IsAllowedTarget(targets[0]) then
      var name := Offender(targets[0]);
      ContainsMiddle("pkill ", "only allowed for", " dev processes (node, npm, npx, vite, next), not: " + name);
      assert PkillReason + name == "pkill " + "only allowed for" + (" dev processes (node, npm, npx, vite, next), not: " + name);
      Rejected(PkillReason + name)
    else
      var v := PkillTargets(targets[1..]);
      assert forall i :: 1 <= i < |targets| ==> targets[i] == targets[1..][i - 1];
      v
  }

  /** A signal given as an option: `-9`, `-KILL`, `-TERM`, `-INT` or `-HUP`. */
  predicate IsSignalOption(t: string)
  {
    || (|t| >= 2 && t[0] == '-' && forall i :: 1 <= i < |t| ==> '0' <= t[i] <= '9')
    || t in {"-KILL", "-TERM", "-INT", "-HUP"}
  }

  /** An option pkill may be given: a signal, or a cluster of the matching
      options `-f` (full command line), `-x` (exact), `-n` (newest) and `-o`
      (oldest). Anything else is refused: `-v`/`--inverse` would signal every
      process that does not match, and options such as `-u`, `-P` or `-F`
      select processes by something other than the pattern. */
  predicate IsPkillOption(t: string)
  {
    || IsSignalOption(t)
    || (IsShortOptions(t) && forall i :: 1 <= i < |t| ==> t[i] in {'f', 'x', 'n', 'o'})
  }

  const PkillOptionReason := "pkill option is not allowed: "

  /** The pkill options rule: the first flag pkill may not be given refuses,
      and the refusal names it. */
  function PkillOptions(args: seq<string>): (v: Validation)
    ensures v.Allowed? <==> forall i :: 0 <= i < |args| && IsFlag(args[i]) ==> IsPkillOption(args[i])
    ensures v.Rejected? ==>
              exists i :: && 0 <= i < |args| && IsFlag(args[i]) && !IsPkillOption(args[i])
                          && (forall j :: 0 <= j < i && IsFlag(args[j]) ==> IsPkillOption(args[j]))
                          && v.reason == PkillOptionReason + args[i]
  {
    if args == [] then Allowed
    else if IsFlag(args[0]) && !IsPkillOption(args[0]) then Rejected(PkillOptionReason + args[0])
    else
      var v := PkillOptions(args[1..]);
      assert forall i :: 1 <= i < |args| ==> args[i] == args[1..][i - 1];
      if v.Rejected? then
        var i :| && 0 <= i < |args[1..]| && IsFlag(args[1..][i]) && !IsPkillOption(args[1..][i])
                 && (forall j :: 0 <= j < i && IsFlag(args[1..][j]) ==> IsPkillOption(args[1..][j]))
                 && v.reason == PkillOptionReason + args[1..][i];
        assert forall j :: 0 <= j < i + 1 && IsFlag(args[j]) ==> IsPkillOption(args[j]);
        v
      else v
  }

  /** The pkill rule on the arguments: every flag one pkill may be given, at
      least one target, and every target a literal pattern naming a
      development process. */
  function PkillArguments(args: seq<string>): (v: Validation)
    ensures v.Allowed? <==>
              && (forall i :: 0 <= i < |args| && IsFlag(args[i]) ==> IsPkillOption(args[i]))
              && (exists i :: 0 <= i < |args| && !IsFlag(args[i]))
              && (forall i :: 0 <= i < |args| && !IsFlag(args[i]) ==> IsAllowedTarget(args[i]))
    ensures v.Rejected? ==> v.reason != []
  {
    var options := PkillOptions(args);
    var targets := NonFlags(args);
    if options.Rejected? then options
    else if targets == [] then
      Rejected("pkill requires a process name")
    else
      assert !IsFlag(targets[0]) && targets[0] in args;
      PkillTargets(targets)
  }

  function ValidatePkill(segment: string): (v: Validation)
    ensures v.Allowed? <==> ArgumentsOf(segment).Ok? && PkillArguments(ArgumentsOf(segment).value).Allowed?
    ensures v.Rejected? ==> v.reason != []
  {
    match ArgumentsOf(segment)
    case Err(_) => Rejected("Could not parse pkill command")
    case Ok(args) => PkillArguments(args)
  }
}
