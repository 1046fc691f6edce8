# Bash command security gate

The agent template runs an autonomous coding agent. Before each tool use, the
client calls a pre-tool-use hook (`bash_security_hook`). For the Bash tool,
the hook decides whether the shell command may run. It proceeds in four
steps:

- The command extractor (`extract_commands`) cuts the command line into
  segments at pipes and chain operators that stand outside quotes.
- In each segment it finds the program being invoked: the first word, with
  the arguments dropped and the directory path stripped.
- Every program must be in the static allowlist (`ALLOWED_COMMANDS`).
- `chmod`, `rm` and `pkill` are allowlisted only under a validator
  (`validate_chmod_command`, `validate_rm_command`,
  `validate_pkill_command`). Each validator returns an `(allowed, reason)`
  pair for its segment.

The hook passes non-Bash tools and lines whose checks all pass, returning
`{}`. Otherwise it returns a block carrying the reason of the first refused
program.

The project is made of four files:

- `extract.dfy` (module `Shell`) holds the extractor. It has connector
  cutting outside quotes, quote-aware tokenizing, the command token, the
  basename, and the extraction result.
- `validators.dfy` (module `Validators`) holds the three validators. Each
  is stated as a predicate on the arguments, with a function proved equal
  to it.
- `hook.dfy` (modules `Allowlist` and `SecurityHook`) holds the allowlist as
  a `Policy` value and the hook.
  - The general lemmas hold for every policy.
  - `Allowlist.Default` is the concrete allowlist.
- `tests.dfy` (module `SecurityTests`) has one lemma per case of the
  repository's test suite, proved from the general lemmas.

`src/security.py` is not part of this model. Its behaviour is taken from two
places: the test suite `skeleton/tests/test_security.py`, and the hook's use
at `skeleton/src/client.py:103`. Where the tests leave a point open, the
model's choice is listed under "## Left out".

## Model

| member | source | states |
|---|---|---|
| Shell.CutFrom | skeleton/tests/test_security.py:29-33 | the first segment is a prefix of the line that ends at a connector, or is the whole line; it holds no refused character; a failure is an open quote or a refused character of the line |
| Shell.CutQuoteState | skeleton/tests/test_security.py:29-33 | the cut falls at the first connector outside quotes: every connector of the segment stands inside quotes, the scan is outside quotes at the cut, and an unclosed-quote failure means the line ends inside a quote |
| Shell.Segments | skeleton/tests/test_security.py:29-33 | a parsed line has at least one segment, and no segment holds a refused character; which lines parse is stated by `SegmentsParse` |
| Shell.CutClosed | skeleton/tests/test_security.py:29-33 | a text with no refused character whose quotes close has a first segment, and the rest after its connector closes its quotes too |
| Shell.SegmentsParse | skeleton/tests/test_security.py:23-36 | a line parses exactly when it holds no refused character and leaves no quote open |
| Shell.SegmentsQuoted | skeleton/tests/test_security.py:29-33 | no segment of a parsed line holds a connector outside quotes |
| Shell.QuotedConnectorsKept | skeleton/tests/test_security.py:51-53 | a line whose connectors all stand inside closed quotes is a single segment |
| Shell.SegmentsOfWordsThenQuoted | skeleton/tests/test_security.py:51-53 | plain words followed by a pattern between `'` or `"` quotes are one segment, even when the pattern holds `\|` or `;` |
| Shell.TokensQuoteState | skeleton/tests/test_security.py:51-53 | tokenizing a segment fails exactly when the segment leaves a quote open, and then with an unclosed-quote error |
| Shell.TokensFromQuoteState | skeleton/tests/test_security.py:51-53 | the same, from any scanner state and any token under construction |
| Shell.OpenQuoteRefused | skeleton/tests/test_security.py:23-36 | a line that leaves a quote open is a parse error for the segmenter, the invocations and the extractor |
| Shell.SegmentsCloseQuotes | skeleton/tests/test_security.py:23-36 | every line the segmenter accepts ends outside quotes |
| Shell.Basename | skeleton/tests/test_security.py:35-36 | the program name is the suffix of the token after its last `/` and holds no `/` |
| Shell.SegmentInvocationRuns | skeleton/tests/test_security.py:23-36 | a segment invokes at most one program; it invokes none exactly when it has no tokens; the one it invokes is the non-empty basename of its command token, which is its first token and neither a flag nor an assignment |
| Shell.InvocationsOf | skeleton/tests/test_security.py:29-33 | no more invocations than segments, and every invoked name is non-empty and free of `/` |
| Shell.InvocationsOfSpec | skeleton/tests/test_security.py:29-33 | the segments parse exactly when each of them does, and every invocation belongs to one of the segments and runs its command token |
| Shell.Invocations | skeleton/tests/test_security.py:29-33 | a line has invocations only when it splits into segments |
| Shell.InvocationsRunCommandTokens | skeleton/tests/test_security.py:23-36 | every invocation of a parsed line comes from one of its segments, which holds no refused character (so no redirection) and no unquoted connector, and runs that segment's command token, which is no assignment |
| Shell.ExtractCommands | skeleton/tests/test_security.py:23-36 | every extracted name is a non-empty name without `/` |
| Shell.Programs | skeleton/tests/test_security.py:32-33 | one name per invocation, in order; repeated names are kept |
| Shell.SegmentsAppend | skeleton/tests/test_security.py:29-33 | joining two lines with a connector concatenates their segment lists |
| Shell.CutOfJoined | skeleton/tests/test_security.py:29-33 | when the left line cuts without error, the first cut of the joined line falls at the joining connector, or at the left line's own first cut |
| Shell.InvocationsAppend | skeleton/tests/test_security.py:29-33 | when the left line splits into segments, a joined line parses exactly when both lines do; its invocations are the left ones followed by the right ones |
| Shell.ExtractAppend | skeleton/tests/test_security.py:29-33 | when the left line splits into segments, a joined line extracts exactly when both lines do; its names are the left names followed by the right names |
| Shell.ProgramsAppend | skeleton/tests/test_security.py:32-33 | the names of concatenated invocations are the concatenated names |
| Shell.InvocationsOfAppend | skeleton/tests/test_security.py:29-33 | the invocations of concatenated segment lists are the concatenated invocations |
| Shell.UnsupportedIsRefused | skeleton/tests/test_security.py:23-36 | a line holding a backtick, `$`, backslash, parenthesis, `<`, `>`, `#`, brace, `*`, `?`, square bracket or `~` anywhere is a parse error (fail closed) |
| Shell.TokensOfWords | skeleton/tests/test_security.py:26-27 | round trip: tokenizing words joined by single spaces, with blanks around them, gives the words back |
| Shell.TokensOfWordsThenQuoted | skeleton/tests/test_security.py:51-53 | a pattern between `'` or `"` quotes after plain words is one token, with the quotes removed and inner blanks kept |
| Shell.TokensInQuote | skeleton/tests/test_security.py:51-53 | inside a quote, every character but the closing quote is kept in the token |
| Shell.TokensSkipBlanks | skeleton/tests/test_security.py:26-27 | leading blanks produce no token |
| Shell.QuotedPatternInvocation | skeleton/tests/test_security.py:42-53 | plain words followed by a pattern between `'` or `"` quotes invoke the program of the first word once, with the whole line as its segment |
| Shell.SegmentOfWords | skeleton/tests/test_security.py:23-27 | a segment of plain words is one segment; with no words it invokes nothing, with no command token or an assignment in its place it is refused, otherwise it invokes the basename of its command token |
| Shell.WordsInvocation | skeleton/tests/test_security.py:23-27 | a command of plain words invokes the basename of its command token, with the whole line as its segment |
| Shell.QuietCommand | skeleton/tests/test_security.py:23-27 | a segment with no connector, quote or refused character invokes the name of its command token |
| Shell.QuietLine | skeleton/tests/test_security.py:23-27 | a line with no connector, quote or refused character is a single segment |
| Shell.ArgumentsDropped | skeleton/tests/test_security.py:23-27 | extraction keeps only the program name of a plain-word segment, whatever its arguments |
| Shell.BasenameOfPath | skeleton/tests/test_security.py:35-36 | a path-qualified command is reduced to its last path component |
| Shell.BasenameOfName | skeleton/tests/test_security.py:23-24 | a name without `/` is its own basename |
| Validators.ArgumentsOfWords | skeleton/tests/test_security.py:42-91 | the arguments a validator sees for a plain-word command are the words after its program |
| Validators.MatchAddExecute | skeleton/tests/test_security.py:59-74 | the mode matcher accepts exactly the modes `[ugoa]*+x` |
| Validators.ChmodArguments | skeleton/tests/test_security.py:59-74 | allowed iff there is no flag, there are a mode and at least one file, and the mode only adds execute; a refused mode yields a reason naming it and containing "+x" |
| Validators.ValidateChmod | skeleton/tests/test_security.py:59-74 | allowed iff the segment parses and its arguments pass the chmod rule; a refusal always has a non-empty reason |
| Validators.RmArguments | skeleton/tests/test_security.py:80-91 | allowed iff no argument is a recursive or force option, including short clusters and abbreviated long options; the reason names the kind of flag and contains "not allowed" |
| Validators.ValidateRm | skeleton/tests/test_security.py:80-91 | allowed iff the segment parses and its arguments pass the rm rule |
| Validators.FirstWord | skeleton/tests/test_security.py:51-53 | the process name of a pattern is its prefix up to the first blank |
| Validators.FirstWordOf | skeleton/tests/test_security.py:51-53 | the process name of a word followed by a blank is that word |
| Validators.NonFlags | skeleton/tests/test_security.py:51-53 | the targets are exactly the non-flag arguments |
| Validators.PkillOptions | skeleton/tests/test_security.py:51-53 | allowed iff every flag is one pkill may be given (a signal, or a cluster of `-f` `-x` `-n` `-o`); a refusal names the first other flag |
| Validators.PkillTargets | skeleton/tests/test_security.py:42-49 | allowed iff every target is a literal pattern (no alternation, repetition, bracket, anchor, grouping or escape; `.` is let through) whose process name is a development process; a refusal names an offending target and contains "only allowed for" |
| Validators.PkillArguments | skeleton/tests/test_security.py:42-53 | allowed iff every flag is an allowed pkill option (so `-v` and `--inverse` are refused), there is a target, and every non-flag argument is an allowed target |
| Validators.ValidatePkill | skeleton/tests/test_security.py:42-53 | allowed iff the segment parses and its arguments pass the pkill rule |
| Allowlist.Default | skeleton/tests/test_security.py:130-133 | the allowlist is non-empty, holds `ls` and `git` unconditionally, holds neither `shutdown` nor `curl`, and routes `chmod`, `rm` and `pkill` through their validators |
| SecurityHook.Check | skeleton/tests/test_security.py:94-127 | an unlisted program is refused with a "not in the allowed commands list" reason; a listed one is allowed, or judged by its validator on its own segment |
| SecurityHook.CheckAll | skeleton/tests/test_security.py:121-127 | a line's invocations pass iff every one of them is allowed |
| SecurityHook.BlockIsFirstRefusal | skeleton/tests/test_security.py:121-127 | a block carries the reason of the first refused invocation, and every invocation before it was allowed |
| SecurityHook.BlockAtFirstRefusal | skeleton/tests/test_security.py:121-127 | the first refused invocation decides the block and its reason |
| SecurityHook.Evaluate | skeleton/tests/test_security.py:98-127 | a line passes iff it parses and every invocation is allowed; an unparseable line is blocked with the parse reason; any other block carries the first refusal's reason |
| SecurityHook.BashSecurityHook | skeleton/tests/test_security.py:97-127 | non-Bash tools pass; a Bash command passes iff it parses and every invocation is allowed; otherwise the block carries the parse reason or the first refusal's reason |
| SecurityHook.PassedProgramsAreAllowed | skeleton/tests/test_security.py:98-103 | every program of a passed line is in the allowlist, and its validator, if any, accepted its segment |
| SecurityHook.RefusedAnywhereBlocks | skeleton/tests/test_security.py:121-127 | one refused invocation anywhere blocks the whole line |
| SecurityHook.UnlistedProgramBlocks | skeleton/tests/test_security.py:105-111 | an unlisted program blocks the line; when it is the first refusal, the reason names it |
| SecurityHook.CheckAllAppend | skeleton/tests/test_security.py:121-127 | evaluating concatenated invocations is evaluating the left ones, then the right ones if the left pass |
| SecurityHook.ChainIsSequential | skeleton/tests/test_security.py:121-127 | when both halves parse, a chained line passes iff both halves pass, and its block is the left block if there is one |
| SecurityHook.ChainWithBlockedBlocks | skeleton/tests/test_security.py:121-127 | when the left line splits into segments, chaining it with another line blocks if either of the two is blocked |
| SecurityHook.BlankCommandPasses | skeleton/tests/test_security.py:98-103 | a blank command invokes nothing and passes |
| SecurityHook.MissingCommandPasses | skeleton/tests/test_security.py:97-103 | a Bash call without a `command` field is judged as the empty command, which runs nothing and passes |
| SecurityHook.UnsupportedBlocks | skeleton/tests/test_security.py:105-111 | a line with a refused shell construct is blocked with the parse reason |
| SecurityHook.SingleCommandVerdict | skeleton/tests/test_security.py:98-111 | a single plain command passes iff its program is allowlisted and any validator accepts it |
| SecurityHook.UnconditionalPasses | skeleton/tests/test_security.py:98-103 | a single plain command whose program is allowlisted unconditionally passes |
| SecurityHook.AssignmentBlocks | skeleton/tests/test_security.py:105-111 | a command whose command token assigns a variable is blocked with the parse reason, whatever follows it |
| SecurityHook.LeadingFlagBlocks | skeleton/tests/test_security.py:105-111 | a command whose first word is a flag is blocked with the parse reason, whatever follows it |
| SecurityHook.SingleInvocationVerdict | skeleton/tests/test_security.py:98-111 | a line of one invocation passes iff that invocation is allowed |
| SecurityTests.ExtractSimpleCommand | skeleton/tests/test_security.py:23-24 | `"ls"` extracts `["ls"]` |
| SecurityTests.ExtractCommandWithArgs | skeleton/tests/test_security.py:26-27 | `"ls -la /tmp"` extracts `["ls"]` |
| SecurityTests.ExtractPipedCommands | skeleton/tests/test_security.py:29-30 | `"cat file.txt \| grep foo"` extracts `["cat", "grep"]` |
| SecurityTests.ExtractChainedCommands | skeleton/tests/test_security.py:32-33 | `"npm install && npm run build"` extracts `["npm", "npm"]` |
| SecurityTests.ExtractCommandWithPath | skeleton/tests/test_security.py:35-36 | `"/usr/bin/python script.py"` extracts `["python"]` |
| SecurityTests.PkillAllowedProcess | skeleton/tests/test_security.py:42-44 | `pkill node` is allowed |
| SecurityTests.PkillBlockedProcess | skeleton/tests/test_security.py:46-49 | `pkill nginx` is refused with a reason containing "only allowed for" |
| SecurityTests.PkillWithFlags | skeleton/tests/test_security.py:51-53 | `pkill -f 'node server.js'` is allowed |
| SecurityTests.ChmodAllowedPlusX | skeleton/tests/test_security.py:59-61 | `chmod +x script.sh` is allowed |
| SecurityTests.ChmodAllowedUserPlusX | skeleton/tests/test_security.py:63-65 | `chmod u+x script.sh` is allowed |
| SecurityTests.ChmodBlockedNumeric | skeleton/tests/test_security.py:67-70 | `chmod 777 file` is refused with a reason containing "+x" |
| SecurityTests.ChmodBlockedWrite | skeleton/tests/test_security.py:72-74 | `chmod +w file` is refused |
| SecurityTests.RmSimple | skeleton/tests/test_security.py:80-82 | `rm file.txt` is allowed |
| SecurityTests.RmBlockedRecursive | skeleton/tests/test_security.py:84-87 | `rm -r directory` is refused with a reason containing "not allowed" |
| SecurityTests.RmBlockedForce | skeleton/tests/test_security.py:89-91 | `rm -f file` is refused |
| SecurityTests.HookAllowedCommand | skeleton/tests/test_security.py:97-103 | the Bash command `ls -la` passes as `{}` |
| SecurityTests.HookBlockedCommand | skeleton/tests/test_security.py:105-111 | the Bash command `shutdown -h now` is blocked |
| SecurityTests.HookNonBashTool | skeleton/tests/test_security.py:113-119 | a Read tool call passes as `{}`, even for `/etc/passwd` |
| SecurityTests.HookChainedWithBlocked | skeleton/tests/test_security.py:121-127 | `ls && curl http://evil.com` is blocked as a whole |
| SecurityTests.AllowedCommandsPopulated | skeleton/tests/test_security.py:130-133 | the allowlist is non-empty and holds `ls` or `git` |
| SecurityTests.HookBlocksAssignmentPrefix | skeleton/tests/test_security.py:105-111 | `X=/ls curl http://evil.com`, where the shell runs `curl`, is blocked with the parse reason |
| SecurityTests.HookBlocksLeadingFlag | skeleton/tests/test_security.py:105-111 | `-d/../../usr/bin/curl ls`, where the shell runs a program named `curl` below the working directory's parent once a directory `-d` exists, is blocked with the parse reason |
| SecurityTests.HookBlocksBraceRm | skeleton/tests/test_security.py:84-91 | `rm {-rf,src}`, which brace expansion turns into `rm -rf src`, is blocked with the parse reason |
| SecurityTests.HookBlocksBraceChmod | skeleton/tests/test_security.py:67-74 | `chmod +x {-w,file}`, which brace expansion turns into `chmod +x -w file`, is blocked with the parse reason |
| SecurityTests.HookBlocksGlobRm | skeleton/tests/test_security.py:84-91 | `rm *`, which becomes recursive next to a file named `-rf`, is blocked with the parse reason |
| SecurityTests.HookBlocksRedirection | skeleton/tests/test_security.py:105-111 | `>./ls curl http://evil.com`, where the shell runs `curl`, is blocked with the parse reason |
| SecurityTests.PkillAlternationRefused | skeleton/tests/test_security.py:46-53 | `pkill -f 'node x\|sshd'`, whose pattern also matches `sshd`, is refused |
| SecurityTests.HookBlocksPkillAlternation | skeleton/tests/test_security.py:46-53 | the quoted `\|` does not cut that line, and the hook blocks it |
| SecurityTests.PkillWithDoubleQuotedPattern | skeleton/tests/test_security.py:51-53 | `pkill -f "node server.js"` is allowed too |
| SecurityTests.PkillInvertRefused | skeleton/tests/test_security.py:42-53 | `-v node` and `--inverse node`, which would signal every process but node, are refused |
| SecurityTests.HookBlocksPkillInverse | skeleton/tests/test_security.py:42-53 | the hook blocks `pkill --inverse node` |
| SecurityTests.HookBlocksCarriageReturn | skeleton/tests/test_security.py:121-127 | `ls\r/../usr/bin/curl` is one shell word, judged as `curl` and blocked |

## Left out

- `src/security.py` is not part of this model. Each point below that the
  tests leave open is decided by the model, fail closed where it matters.
- Shell grammar beyond connectors, blanks and quotes is not analysed. A line
  holding any of `` ` `` `$` `\` `(` `)` `<` `>` `#` `{` `}` `*` `?` `[`
  `]` `~` is refused as a whole and blocked with the parse reason. This
  covers command substitution, subshells, variable expansion, escapes,
  redirections, here-documents, comments, and brace, pathname and tilde
  expansion. The expansions are refused because they can produce words the
  validators never saw: `rm {-rf,src}` runs `rm -rf src`, and `rm *` runs
  recursively next to a file named `-rf`. These characters are refused
  inside quotes too.
- A command token that assigns a variable (`NAME=value`) is refused, since
  the shell would run a later word instead.
- A quote left open makes the line a parse error, and the hook blocks it.
- Words are split at spaces and tabs only, as in the shell; a carriage
  return is part of a word.
- A single `&` (background), `;` and newline are connectors like `|`, `&&`
  and `||`. Every segment is checked.
- A blank command, or one made only of connectors, invokes nothing and passes.
- The command token is the first token. A segment whose first token is a
  flag is refused, since the shell would run that word as the program.
- Shell.Basename: the directory part of the command token is dropped, as the
  tests require, so `/tmp/ls` is judged as `ls`.
- Allowlist.Default: only `ls` allowlisted and `shutdown` and `curl` not
  are fixed by the tests; `git` is this model's choice. The other entries are this model's
  choice, and every general lemma holds for any `Policy`.
- Validators.DevProcesses: only `node` is fixed by the tests. `npm`, `npx`,
  `vite` and `next` are this model's choice.
- Validators.PkillArguments: a target must be a literal pattern, free of
  the regular-expression operators for alternation, repetition, brackets,
  anchors, grouping and escapes. The wildcard `.` is let through, because
  `node server.js` needs it, so that pattern also matches `node serverXjs`.
  pkill still matches a target as a substring of process names (or of full
  command lines under `-f`), so `pkill node` also reaches a process named
  `mynode`; the tests require `pkill node` to pass.
- Validators.IsPkillOption: only signals (`-9`, `-KILL`, `-TERM`, `-INT`,
  `-HUP`) and clusters of `-f`, `-x`, `-n`, `-o` are accepted. Every other
  option is refused, including `-v`/`--inverse` and options that select
  processes by user, parent or pid file.
- The reason texts are this model's wording. The tests fix only the
  substrings "only allowed for", "+x" and "not allowed", and those are
  proved.
- Validators.ValidateRm: called on its own, it judges the words as
  written, before any shell expansion. Through the hook it never sees an
  expansion, since the characters that start one are refused first.
- Validators.ValidateChmod: the same holds for it.
- The validators look only at their segment's arguments. They do not check
  that the command token names their own program; the allowlist routes each
  program to its validator.
- Only string-valued tool input fields are modelled. A missing `command`
  field is treated as the empty command.
- The hook is `async` in the source. Here it is a pure function of the
  policy and the tool call.
- Extracted names keep repetitions. The tests (`["npm", "npm"]`) fix this
  over a reading of the extractor as returning distinct names.
