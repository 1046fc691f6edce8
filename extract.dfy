/** The command extractor: turns one command line into the ordered sequence of
    programs it invokes, each paired with the text of the segment it heads.

    A line is cut into segments at every connector character (`|`, `&`, `;`
    and newline) that stands outside quotes; `&&` and `||` are two connector
    characters with an empty segment between them, and empty segments invoke
    nothing. A segment is split into whitespace-separated tokens, a `'...'` or
    `"..."` run being part of one token with its quotes removed. The command
    token of a segment is its first token, and the program name is that
    token's last path component; a segment whose first token is a flag is
    refused, since the shell would run that word as the program.

    Shell constructs the extractor does not analyse (command substitution,
    subshells, variable expansion, escapes, redirections, comments, brace,
    pathname and tilde expansion) are refused as a whole: a line that
    contains any of the characters `` ` `` `$` `\` `(` `)` `<` `>` `#` `{`
    `}` `*` `?` `[` `]` `~` is a parse error, and so is a quote left open.
    Refusing the expansions matters because they can turn an argument into
    a flag the validators never saw: `rm {-rf,src}` runs `rm -rf src`. A command token that assigns a variable (`NAME=value`) is refused
    too: the shell would run the word after it. */
module Shell {

  datatype Option<T> = None | Some(value: T)

  datatype ParseError =
    | UnclosedQuote
    | UnsupportedChar(c: char)
    | MissingProgram(segment: string)
    | Assignment(word: string)
    | LeadingFlag(word: string)

  datatype Result<T> = Ok(value: T) | Err(error: ParseError)

  /** Both results ok: the concatenation; otherwise the first error. */
  function Append<T>(a: Result<seq<T>>, b: Result<seq<T>>): (r: Result<seq<T>>)
    ensures r.Ok? <==> a.Ok? && b.Ok?
    ensures r.Ok? ==> r.value == a.value + b.value
  {
    match a
    case Err(e) => Err(e)
    case Ok(x) =>
      match b
      case Err(e) => Err(e)
      case Ok(y) => Ok(x + y)
  }

  predicate IsConnector(c: char) { c == '|' || c == '&' || c == ';' || c == '\n' }
  /** The characters the shell splits words at, besides the connectors. */
  predicate IsBlank(c: char) { c == ' ' || c == '\t' }
  predicate IsQuote(c: char) { c == '\'' || c == '"' }
  predicate IsUnsupported(c: char)
  {
    || c == '`' || c == '$' || c == '\\' || c == '(' || c == ')' || c == '<' || c == '>' || c == '#'
    || c == '{' || c == '}' || c == '*' || c == '?' || c == '[' || c == ']' || c == '~'
  }

  /** A token that begins with a dash. */
  predicate IsFlag(t: string) { |t| > 0 && t[0] == '-' }

  /** Whether the scanner is inside a quoted run, and which quote opened it. */
  datatype Quote = Unquoted | In(open: char)

  function Next(q: Quote, c: char): Quote
  {
    match q
    case Unquoted => if IsQuote(c) then In(c) else Unquoted
    case In(open) => if c == open then Unquoted else q
  }

  /** The quote state after scanning `s` from state `q`. */
  function QuoteAfter(q: Quote, s: string): Quote
    decreases |s|
  {
    if s == [] then q else QuoteAfter(Next(q, s[0]), s[1..])
  }

  lemma QuoteAfterCons(q: Quote, c: char, x: string)
    ensures QuoteAfter(q, [c] + x) == QuoteAfter(Next(q, c), x)
  {
    assert ([c] + x)[0] == c && ([c] + x)[1..] == x;
  }

  lemma {:induction false} QuoteAfterAppend(q: Quote, a: string, b: string)
    ensures QuoteAfter(q, a + b) == QuoteAfter(QuoteAfter(q, a), b)
    decreases |a|
  {
    if a == [] {
      assert a + b == b;
    } else {
      assert (a + b)[0] == a[0] && (a + b)[1..] == a[1..] + b;
      QuoteAfterAppend(Next(q, a[0]), a[1..], b);
    }
  }

  /** Every connector of `seg`, scanned from state `q`, stands inside quotes. */
  ghost predicate ConnectorsQuoted(q: Quote, seg: string)
  {
    forall i :: 0 <= i < |seg| && IsConnector(seg[i]) ==> QuoteAfter(q, seg[..i]).In?
  }

  lemma ConnectorsQuotedCons(q: Quote, c: char, seg: string)
    requires IsConnector(c) ==> q.In?
    requires ConnectorsQuoted(Next(q, c), seg)
    ensures ConnectorsQuoted(q, [c] + seg)
  {
    var s := [c] + seg;
    forall i | 0 <= i < |s| && IsConnector(s[i]) ensures QuoteAfter(q, s[..i]).In? {
      if i > 0 {
        assert s[..i] == [c] + seg[..i - 1];
        assert seg[i - 1] == s[i];
        QuoteAfterCons(q, c, seg[..i - 1]);
      }
    }
  }

  // ---------------------------------------------------------------------
  // Segments
  // ---------------------------------------------------------------------

  /** The text before the first unquoted connector and, if there is one, the
      text after it. */
  datatype Piece = Piece(segment: string, rest: Option<string>)

  function Push(c: char, r: Result<Piece>): Result<Piece>
  {
    match r
    case Err(e) => Err(e)
    case Ok(p) => Ok(Piece([c] + p.segment, p.rest))
  }

  /** The first segment of `s` scanned from quote state `q`: the text before
      the first connector that stands outside quotes. */
  function CutFrom(s: string, q: Quote): (r: Result<Piece>)
    decreases |s|
    ensures r.Ok? && r.value.rest.None? ==> r.value.segment == s
    ensures r.Ok? && r.value.rest.Some? ==>
              var k := |r.value.segment|;
              k < |s| && s[..k] == r.value.segment && IsConnector(s[k]) && s[k + 1..] == r.value.rest.value
    ensures r.Ok? ==> forall i :: 0 <= i < |r.value.segment| ==> !IsUnsupported(r.value.segment[i])
    ensures r.Err? ==> r.error == UnclosedQuote || (r.error.UnsupportedChar? && r.error.c in s && IsUnsupported(r.error.c))
  {
    if s == [] then
      if q.Unquoted? then Ok(Piece([], None)) else Err(UnclosedQuote)
    else if IsUnsupported(s[0]) then Err(UnsupportedChar(s[0]))
    else if q.Unquoted? && IsConnector(s[0]) then Ok(Piece([], Some(s[1..])))
    else
      var r := CutFrom(s[1..], Next(q, s[0]));
      if r.Err? then r else Push(s[0], r)
  }

  /** The cut falls at the first connector outside quotes: every connector
      of the segment stands inside quotes, and the scan is outside quotes at
      the cutting connector and at the end of an uncut line; a line that ends
      inside quotes is refused as an unclosed quote only. */
  lemma {:induction false} CutQuoteState(s: string, q: Quote)
    ensures CutFrom(s, q).Ok? ==> ConnectorsQuoted(q, CutFrom(s, q).value.segment)
    ensures CutFrom(s, q).Ok? && CutFrom(s, q).value.rest.None? ==> QuoteAfter(q, s) == Unquoted
    ensures CutFrom(s, q).Ok? && CutFrom(s, q).value.rest.Some? ==> QuoteAfter(q, CutFrom(s, q).value.segment) == Unquoted
    ensures CutFrom(s, q) == Err(UnclosedQuote) ==> QuoteAfter(q, s).In?
    decreases |s|
  {
    if s != [] && !IsUnsupported(s[0]) && !(q.Unquoted? && IsConnector(s[0])) {
      var r := CutFrom(s[1..], Next(q, s[0]));
      CutQuoteState(s[1..], Next(q, s[0]));
      if r.Ok? {
        QuoteAfterCons(q, s[0], r.value.segment);
        ConnectorsQuotedCons(q, s[0], r.value.segment);
      }
    }
  }

  /** The first segment of a line and the rest of the line after its connector. */
  function Cut(s: string): Result<Piece> { CutFrom(s, Unquoted) }

  /** The raw texts of the segments of a line, left to right, empty ones included. */
  function Segments(s: string): (r: Result<seq<string>>)
    decreases |s|
    ensures r.Ok? ==> |r.value| > 0
    ensures r.Ok? ==> forall j, i :: 0 <= j < |r.value| && 0 <= i < |r.value[j]| ==> !IsUnsupported(r.value[j][i])
  {
    var c := Cut(s);
    if c.Err? then Err(c.error)
    else if c.value.rest.None? then Ok([c.value.segment])
    else Append(Ok([c.value.segment]), Segments(c.value.rest.value))
  }

  /** No segment holds a connector outside quotes. */
  lemma {:induction false} SegmentsQuoted(s: string)
    requires Segments(s).Ok?
    ensures forall j :: 0 <= j < |Segments(s).value| ==> ConnectorsQuoted(Unquoted, Segments(s).value[j])
    decreases |s|
  {
    var c := Cut(s).value;
    CutQuoteState(s, Unquoted);
    if c.rest.Some? {
      SegmentsQuoted(c.rest.value);
      assert Segments(s).value == [c.segment] + Segments(c.rest.value).value;
    }
  }

  // ---------------------------------------------------------------------
  // Tokens
  // ---------------------------------------------------------------------

  function Text(cur: Option<string>): string { if cur.Some? then cur.value else [] }

  function Cons(t: string, r: Result<seq<string>>): Result<seq<string>>
  {
    match r
    case Err(e) => Err(e)
    case Ok(ts) => Ok([t] + ts)
  }

  /** Tokens of `s`, scanned in quote state `q` with the token `cur` under
      construction (`None` between tokens). */
  function TokensFrom(s: string, q: Quote, cur: Option<string>): Result<seq<string>>
    decreases |s|
  {
    if s == [] then
      if q.In? then Err(UnclosedQuote)
      else Ok(if cur.Some? then [cur.value] else [])
    else
      var c := s[0];
      match q
      case In(open) =>
        if c == open then TokensFrom(s[1..], Unquoted, cur)
        else TokensFrom(s[1..], q, Some(Text(cur) + [c]))
      case Unquoted =>
        if IsBlank(c) then
          if cur.Some? then Cons(cur.value, TokensFrom(s[1..], Unquoted, None))
          else TokensFrom(s[1..], Unquoted, None)
        else if IsQuote(c) then TokensFrom(s[1..], In(c), Some(Text(cur)))
        else TokensFrom(s[1..], Unquoted, Some(Text(cur) + [c]))
  }

  /** The tokens of a segment. */
  function Tokens(s: string): Result<seq<string>>
  {
    TokensFrom(s, Unquoted, None)
  }

  /** Tokenizing fails exactly when the text leaves a quote open, and then
      with an unclosed quote. */
  lemma {:induction false} TokensFromQuoteState(s: string, q: Quote, cur: Option<string>)
    ensures TokensFrom(s, q, cur).Err? <==> QuoteAfter(q, s).In?
    ensures TokensFrom(s, q, cur).Err? ==> TokensFrom(s, q, cur).error == UnclosedQuote
    decreases |s|
  {
    if s != [] {
      var c := s[0];
      match q
      case In(open) =>
        if c == open {
          TokensFromQuoteState(s[1..], Unquoted, cur);
        } else {
          TokensFromQuoteState(s[1..], q, Some(Text(cur) + [c]));
        }
      case Unquoted =>
        if IsBlank(c) {
          TokensFromQuoteState(s[1..], Unquoted, None);
        } else if IsQuote(c) {
          TokensFromQuoteState(s[1..], In(c), Some(Text(cur)));
        } else {
          TokensFromQuoteState(s[1..], Unquoted, Some(Text(cur) + [c]));
        }
    }
  }

  /** The tokens of a segment; a quote left open is the only error. */
  lemma TokensQuoteState(s: string)
    ensures Tokens(s).Err? <==> QuoteAfter(Unquoted, s).In?
    ensures Tokens(s).Err? ==> Tokens(s).error == UnclosedQuote
  {
    TokensFromQuoteState(s, Unquoted, None);
  }

  /** The last path component of `t`. */
  function Basename(t: string): (b: string)
    ensures |b| <= |t| && t[|t| - |b|..] == b
    ensures forall i :: 0 <= i < |b| ==> b[i] != '/'
    ensures |b| < |t| ==> t[|t| - |b| - 1] == '/'
  {
    if t == [] || t[|t| - 1] == '/' then []
    else Basename(t[..|t| - 1]) + [t[|t| - 1]]
  }

  // ---------------------------------------------------------------------
  // Invocations
  // ---------------------------------------------------------------------

  /** A program and the text of the segment that invokes it. */
  datatype Invocation = Invocation(program: string, segment: string)

  /** A program name as the extractor produces them: non-empty, with no directory part. */
  predicate IsProgramName(n: string) { |n| > 0 && forall i :: 0 <= i < |n| ==> n[i] != '/' }

  /** A word that assigns a shell variable rather than naming a program. */
  predicate IsAssignment(t: string) { '=' in t }

  /** `inv` runs the command token of its segment: that token is the first
      one, neither a flag nor an assignment, and the program is its non-empty
      last path component. */
  ghost predicate RunsCommandToken(inv: Invocation)
  {
    && Tokens(inv.segment).Ok?
    && var ts := Tokens(inv.segment).value;
       && ts != []
       && !IsFlag(ts[0])
       && !IsAssignment(ts[0])
       && inv.program == Basename(ts[0])
       && IsProgramName(inv.program)
  }

  /** No invocation for a blank segment, one for a segment with a command
      token, and a parse error otherwise. */
  function SegmentInvocation(seg: string): Result<seq<Invocation>>
  {
    match Tokens(seg)
    case Err(e) => Err(e)
    case Ok(ts) =>
      if ts == [] then Ok([])
      else if IsFlag(ts[0]) then Err(LeadingFlag(ts[0]))
      else if IsAssignment(ts[0]) then Err(Assignment(ts[0]))
      else
        var name := Basename(ts[0]);
        if name == [] then Err(MissingProgram(seg)) else Ok([Invocation(name, seg)])
  }

  /** At most one invocation per segment, each of it running the segment's
      command token. */
  lemma SegmentInvocationRuns(seg: string)
    requires SegmentInvocation(seg).Ok?
    ensures |SegmentInvocation(seg).value| <= 1
    ensures SegmentInvocation(seg).value == [] <==> Tokens(seg) == Ok([])
    ensures forall i :: 0 <= i < |SegmentInvocation(seg).value| ==>
              SegmentInvocation(seg).value[i].segment == seg && RunsCommandToken(SegmentInvocation(seg).value[i])
  {
  }

  function InvocationsOf(segs: seq<string>): (r: Result<seq<Invocation>>)
    decreases |segs|
    ensures r.Ok? ==> |r.value| <= |segs|
    ensures r.Ok? ==> forall i :: 0 <= i < |r.value| ==> IsProgramName(r.value[i].program)
  {
    if segs == [] then Ok([])
    else Append(SegmentInvocation(segs[0]), InvocationsOf(segs[1..]))
  }

  /** The segments parse exactly when each of them does, and every invocation
      comes from one of the segments and runs its command token. */
  lemma {:induction false} InvocationsOfSpec(segs: seq<string>)
    ensures InvocationsOf(segs).Ok? <==> forall j :: 0 <= j < |segs| ==> SegmentInvocation(segs[j]).Ok?
    ensures InvocationsOf(segs).Ok? ==>
              forall i :: 0 <= i < |InvocationsOf(segs).value| ==>
                InvocationsOf(segs).value[i].segment in segs && RunsCommandToken(InvocationsOf(segs).value[i])
    decreases |segs|
  {
    if segs != [] {
      InvocationsOfSpec(segs[1..]);
      assert forall j :: 1 <= j < |segs| ==> segs[j] == segs[1..][j - 1];
      if InvocationsOf(segs).Ok? {
        var head: seq<Invocation>, tail: seq<Invocation> := SegmentInvocation(segs[0]).value, InvocationsOf(segs[1..]).value;
        SegmentInvocationRuns(segs[0]);
        assert InvocationsOf(segs).value == head + tail;
        forall i | 0 <= i < |head + tail|
          ensures (head + tail)[i].segment in segs && RunsCommandToken((head + tail)[i])
        {
          if i >= |head| {
            assert (head + tail)[i] == tail[i - |head|];
          }
        }
      }
    }
  }

  /** Every program a line invokes, left to right, with its segment. */
  function Invocations(line: string): (r: Result<seq<Invocation>>)
    ensures r.Ok? ==> Segments(line).Ok?
  {
    match Segments(line)
    case Err(e) => Err(e)
    case Ok(segs) => InvocationsOf(segs)
  }

  /** No program comes from anywhere but a command token: each invocation of
      a parsed line belongs to one of its segments, a segment with no refused
      character (so no redirection) and no connector outside quotes, and runs
      that segment's command token, which assigns no variable. */
  lemma InvocationsRunCommandTokens(line: string)
    requires Invocations(line).Ok?
    ensures forall i :: 0 <= i < |Invocations(line).value| ==>
              var inv := Invocations(line).value[i];
              && inv.segment in Segments(line).value
              && (forall j :: 0 <= j < |inv.segment| ==> !IsUnsupported(inv.segment[j]))
              && ConnectorsQuoted(Unquoted, inv.segment)
              && RunsCommandToken(inv)
  {
    var segs := Segments(line).value;
    var invs := Invocations(line).value;
    SegmentsQuoted(line);
    InvocationsOfSpec(segs);
    forall i | 0 <= i < |invs|
      ensures invs[i].segment in segs
      ensures forall j :: 0 <= j < |invs[i].segment| ==> !IsUnsupported(invs[i].segment[j])
      ensures ConnectorsQuoted(Unquoted, invs[i].segment)
    {
      var m :| 0 <= m < |segs| && segs[m] == invs[i].segment;
    }
  }

  function Programs(invs: seq<Invocation>): (names: seq<string>)
    ensures |names| == |invs|
    ensures forall i :: 0 <= i < |invs| ==> names[i] == invs[i].program
  {
    if invs == [] then [] else [invs[0].program] + Programs(invs[1..])
  }

  /** The program names a line invokes, left to right, repetitions kept. */
  function ExtractCommands(line: string): (r: Result<seq<string>>)
    ensures r.Ok? ==> forall i :: 0 <= i < |r.value| ==> IsProgramName(r.value[i])
  {
    match Invocations(line)
    case Err(e) => Err(e)
    case Ok(invs) => Ok(Programs(invs))
  }

  // ---------------------------------------------------------------------
  // Properties of the extractor
  // ---------------------------------------------------------------------

  /** Text after a connector that was already found does not move the cut. */
  lemma {:induction false} CutIgnoresSuffix(a: string, q: Quote, seg: string, r: string, x: string)
    requires CutFrom(a, q) == Ok(Piece(seg, Some(r)))
    ensures CutFrom(a + x, q) == Ok(Piece(seg, Some(r + x)))
    decreases |a|
  {
    assert a != [];
    assert (a + x)[0] == a[0] && (a + x)[1..] == a[1..] + x;
    if q.Unquoted? && IsConnector(a[0]) {
    } else {
      var p := CutFrom(a[1..], Next(q, a[0]));
      assert p.Ok? && p.value.rest == Some(r);
      CutIgnoresSuffix(a[1..], Next(q, a[0]), p.value.segment, r, x);
    }
  }

  /** A complete segment followed by a connector is cut exactly there. */
  lemma {:induction false} CutAtConnector(a: string, q: Quote, c: char, b: string)
    requires CutFrom(a, q) == Ok(Piece(a, None))
    requires IsConnector(c)
    ensures CutFrom(a + [c] + b, q) == Ok(Piece(a, Some(b)))
    decreases |a|
  {
    if a == [] {
      assert a + [c] + b == [c] + b;
    } else {
      assert (a + [c] + b)[0] == a[0] && (a + [c] + b)[1..] == a[1..] + [c] + b;
      var p := CutFrom(a[1..], Next(q, a[0]));
      assert p.Ok? && p.value.rest.None?;
      CutAtConnector(a[1..], Next(q, a[0]), c, b);
    }
  }

  /** Joining two lines with a connector joins their segment lists. */
  lemma {:induction false} SegmentsAppend(a: string, c: char, b: string)
    requires Segments(a).Ok?
    requires IsConnector(c)
    ensures Segments(a + [c] + b) == Append(Segments(a), Segments(b))
    decreases |a|
  {
    var p := Cut(a).value;
    CutOfJoined(a, c, b);
    if p.rest.Some? {
      var rest := p.rest.value;
      assert Segments(a) == Append(Ok([p.segment]), Segments(rest));
      SegmentsAppend(rest, c, b);
      AppendAssoc(Ok([p.segment]), Segments(rest), Segments(b));
    }
  }

  /** Where the first cut of a joined line falls: at the connector when the
      left line is one segment, at the left line's own first cut otherwise. */
  lemma CutOfJoined(a: string, c: char, b: string)
    requires Cut(a).Ok?
    requires IsConnector(c)
    ensures Cut(a).value.rest.None? ==> Cut(a + [c] + b) == Ok(Piece(a, Some(b)))
    ensures Cut(a).value.rest.Some? ==>
              Cut(a + [c] + b) == Ok(Piece(Cut(a).value.segment, Some(Cut(a).value.rest.value + [c] + b)))
  {
    var p := Cut(a).value;
    if p.rest.None? {
      CutAtConnector(a, Unquoted, c, b);
    } else {
      var rest := p.rest.value;
      CutIgnoresSuffix(a, Unquoted, p.segment, rest, [c] + b);
      assert a + [c] + b == a + ([c] + b);
      assert rest + ([c] + b) == rest + [c] + b;
    }
  }

  lemma AppendAssoc<T>(a: Result<seq<T>>, b: Result<seq<T>>, c: Result<seq<T>>)
    ensures Append(Append(a, b), c) == Append(a, Append(b, c))
  {
    if a.Ok? && b.Ok? && c.Ok? {
      assert a.value + b.value + c.value == a.value + (b.value + c.value);
    }
  }

  lemma {:induction false} InvocationsOfAppend(xs: seq<string>, ys: seq<string>)
    ensures InvocationsOf(xs + ys) == Append(InvocationsOf(xs), InvocationsOf(ys))
    decreases |xs|
  {
    if xs == [] {
      assert xs + ys == ys;
      if InvocationsOf(ys).Ok? {
        assert [] + InvocationsOf(ys).value == InvocationsOf(ys).value;
      }
    } else {
      assert (xs + ys)[0] == xs[0] && (xs + ys)[1..] == xs[1..] + ys;
      InvocationsOfAppend(xs[1..], ys);
      AppendAssoc(SegmentInvocation(xs[0]), InvocationsOf(xs[1..]), InvocationsOf(ys));
    }
  }

  /** A connector between two lines runs both: the invocations of the joined
      line are those of the left line followed by those of the right one. */
  lemma InvocationsAppend(a: string, c: char, b: string)
    requires Segments(a).Ok?
    requires IsConnector(c)
    ensures Invocations(a + [c] + b).Ok? <==> Invocations(a).Ok? && Invocations(b).Ok?
    ensures Invocations(a + [c] + b).Ok? ==>
              Invocations(a + [c] + b).value == Invocations(a).value + Invocations(b).value
  {
    SegmentsAppend(a, c, b);
    if Segments(b).Ok? {
      InvocationsOfAppend(Segments(a).value, Segments(b).value);
    }
  }

  /** The same for program names: left to right, repetitions kept. */
  lemma ExtractAppend(a: string, c: char, b: string)
    requires Segments(a).Ok?
    requires IsConnector(c)
    ensures ExtractCommands(a + [c] + b).Ok? <==> ExtractCommands(a).Ok? && ExtractCommands(b).Ok?
    ensures ExtractCommands(a + [c] + b).Ok? ==>
              ExtractCommands(a + [c] + b).value == ExtractCommands(a).value + ExtractCommands(b).value
  {
    InvocationsAppend(a, c, b);
    if Invocations(a + [c] + b).Ok? {
      ProgramsAppend(Invocations(a).value, Invocations(b).value);
    }
  }

  lemma ProgramsAppend(xs: seq<Invocation>, ys: seq<Invocation>)
    ensures Programs(xs + ys) == Programs(xs) + Programs(ys)
  {
    assert |Programs(xs + ys)| == |Programs(xs) + Programs(ys)|;
    forall i | 0 <= i < |xs + ys| ensures Programs(xs + ys)[i] == (Programs(xs) + Programs(ys))[i] {
      if i < |xs| {
        assert (xs + ys)[i] == xs[i];
      } else {
        assert (xs + ys)[i] == ys[i - |xs|];
      }
    }
  }

  /** A line holding a construct the extractor does not analyse is refused. */
  lemma {:induction false} UnsupportedIsRefused(line: string, i: nat)
    requires i < |line| && IsUnsupported(line[i])
    ensures Segments(line).Err? && Invocations(line).Err? && ExtractCommands(line).Err?
    decreases |line|
  {
    var c := Cut(line);
    CutPastRefused(line, i);
    if c.Ok? {
      var k, rest := |c.value.segment|, c.value.rest.value;
      assert line[i] == rest[i - k - 1];
      UnsupportedIsRefused(rest, i - k - 1);
    }
  }

  /** A cut that succeeds on a line with a refused character falls before it. */
  lemma CutPastRefused(line: string, i: nat)
    requires i < |line| && IsUnsupported(line[i])
    ensures Cut(line).Ok? ==> Cut(line).value.rest.Some? && |Cut(line).value.segment| < i
  {
    if Cut(line).Ok? {
      var seg := Cut(line).value.segment;
      assert forall j :: 0 <= j < |seg| ==> seg[j] == line[j];
    }
  }

  /** A parsed line ends outside quotes. */
  lemma {:induction false} SegmentsCloseQuotes(line: string)
    requires Segments(line).Ok?
    ensures QuoteAfter(Unquoted, line) == Unquoted
    decreases |line|
  {
    var p := Cut(line).value;
    CutQuoteState(line, Unquoted);
    if p.rest.Some? {
      var k, rest := |p.segment|, p.rest.value;
      SplitAt(line, k);
      QuoteAfterAppend(Unquoted, p.segment, [line[k]] + rest);
      QuoteAfterCons(Unquoted, line[k], rest);
      SegmentsCloseQuotes(rest);
    }
  }

  lemma SplitAt(s: string, k: nat)
    requires k < |s|
    ensures s == s[..k] + ([s[k]] + s[k + 1..])
  {
  }

  /** So a line that leaves a quote open is refused. */
  lemma OpenQuoteRefused(line: string)
    requires QuoteAfter(Unquoted, line).In?
    ensures Segments(line).Err? && Invocations(line).Err? && ExtractCommands(line).Err?
  {
    if Segments(line).Ok? {
      SegmentsCloseQuotes(line);
    }
  }

  /** A text free of refused characters whose quotes close, scanned from
      `q`, has a first segment, and the rest after it closes its quotes too. */
  lemma {:induction false} CutClosed(s: string, q: Quote)
    requires forall i :: 0 <= i < |s| ==> !IsUnsupported(s[i])
    requires QuoteAfter(q, s) == Unquoted
    ensures CutFrom(s, q).Ok?
    ensures CutFrom(s, q).value.rest.Some? ==> QuoteAfter(Unquoted, CutFrom(s, q).value.rest.value) == Unquoted
    decreases |s|
  {
    if s != [] && !(q.Unquoted? && IsConnector(s[0])) {
      CutClosed(s[1..], Next(q, s[0]));
    }
  }

  /** A line parses exactly when it holds no refused character and leaves
      no quote open. */
  lemma {:induction false} SegmentsParse(line: string)
    ensures Segments(line).Ok? <==>
              (forall i :: 0 <= i < |line| ==> !IsUnsupported(line[i])) && QuoteAfter(Unquoted, line) == Unquoted
    decreases |line|
  {
    if exists i :: 0 <= i < |line| && IsUnsupported(line[i]) {
      var i :| 0 <= i < |line| && IsUnsupported(line[i]);
      UnsupportedIsRefused(line, i);
    } else if QuoteAfter(Unquoted, line) != Unquoted {
      OpenQuoteRefused(line);
    } else {
      CutClosed(line, Unquoted);
      var p := Cut(line).value;
      if p.rest.Some? {
        var rest := p.rest.value;
        assert forall i :: 0 <= i < |rest| ==> rest[i] == line[|p.segment| + 1 + i];
        SegmentsParse(rest);
      }
    }
  }

  /** A line whose connectors all stand inside quotes, which closes its
      quotes and holds no refused character, is one segment. */
  lemma QuotedConnectorsKept(line: string)
    requires forall i :: 0 <= i < |line| ==> !IsUnsupported(line[i])
    requires QuoteAfter(Unquoted, line) == Unquoted
    requires ConnectorsQuoted(Unquoted, line)
    ensures Segments(line) == Ok([line])
  {
    var c := Cut(line);
    CutQuoteState(line, Unquoted);
    assert c.Ok?;
    assert c.value.rest.None?;
  }

  /** A character that neither cuts, quotes nor is refused. */
  predicate IsQuiet(c: char) { !IsConnector(c) && !IsQuote(c) && !IsUnsupported(c) }

  /** A word the shell passes through unchanged: no blank, quote, connector
      or refused character, so none of the expansions the shell performs
      applies to it. */
  predicate IsPlainWord(w: string)
  {
    |w| > 0 && forall i :: 0 <= i < |w| ==> IsQuiet(w[i]) && !IsBlank(w[i])
  }

  predicate IsBlanks(s: string) { forall i :: 0 <= i < |s| ==> IsBlank(s[i]) }

  /** Words joined by single spaces. */
  function JoinWords(ws: seq<string>): string
  {
    if ws == [] then [] else if |ws| == 1 then ws[0] else ws[0] + " " + JoinWords(ws[1..])
  }

  lemma {:induction false} JoinWordsQuiet(ws: seq<string>)
    requires forall j :: 0 <= j < |ws| ==> IsPlainWord(ws[j])
    ensures forall i :: 0 <= i < |JoinWords(ws)| ==> IsQuiet(JoinWords(ws)[i])
    decreases |ws|
  {
    if |ws| > 1 {
      JoinWordsQuiet(ws[1..]);
      var s := JoinWords(ws);
      forall i | 0 <= i < |s| ensures IsQuiet(s[i]) {
        if i < |ws[0]| {
          assert s[i] == ws[0][i];
        } else if i > |ws[0]| {
          assert s[i] == JoinWords(ws[1..])[i - |ws[0]| - 1];
        }
      }
    }
  }

  lemma {:induction false} CutQuiet(s: string)
    requires forall i :: 0 <= i < |s| ==> IsQuiet(s[i])
    ensures CutFrom(s, Unquoted) == Ok(Piece(s, None))
    decreases |s|
  {
    if s != [] {
      CutQuiet(s[1..]);
    }
  }

  lemma {:induction false} TokensSkipBlanks(pre: string, x: string)
    requires IsBlanks(pre)
    ensures TokensFrom(pre + x, Unquoted, None) == TokensFrom(x, Unquoted, None)
    decreases |pre|
  {
    if pre == [] {
      assert pre + x == x;
    } else {
      assert (pre + x)[0] == pre[0] && (pre + x)[1..] == pre[1..] + x;
      TokensSkipBlanks(pre[1..], x);
    }
  }

  lemma {:induction false} TokensExtendWord(w: string, cur: Option<string>, x: string)
    requires forall i :: 0 <= i < |w| ==> IsQuiet(w[i]) && !IsBlank(w[i])
    requires |w| > 0 || cur.Some?
    ensures TokensFrom(w + x, Unquoted, cur) == TokensFrom(x, Unquoted, Some(Text(cur) + w))
    decreases |w|
  {
    if w == [] {
      assert w + x == x && Text(cur) + w == Text(cur);
    } else {
      assert (w + x)[0] == w[0] && (w + x)[1..] == w[1..] + x;
      TokensExtendWord(w[1..], Some(Text(cur) + [w[0]]), x);
      assert Text(cur) + [w[0]] + w[1..] == Text(cur) + w;
    }
  }

  /** Plain words followed by text that starts at a blank tokenize as the
      words followed by the tokens of that text. */
  lemma {:induction false} TokensJoinThen(ws: seq<string>, post: string)
    requires forall j :: 0 <= j < |ws| ==> IsPlainWord(ws[j])
    requires post == [] || IsBlank(post[0])
    ensures TokensFrom(JoinWords(ws) + post, Unquoted, None) == Append(Ok(ws), TokensFrom(post, Unquoted, None))
    decreases |ws|
  {
    var rest := TokensFrom(post, Unquoted, None);
    if ws == [] {
      assert [] + post == post;
      if rest.Ok? { assert [] + rest.value == rest.value; }
    } else if |ws| == 1 {
      TokensOneWordThen(ws[0], post);
      assert ws == [ws[0]];
    } else {
      var w, more := ws[0], JoinWords(ws[1..]) + post;
      assert JoinWords(ws) + post == w + ([' '] + more);
      TokensWordThenSpace(w, more);
      TokensJoinThen(ws[1..], post);
      AppendAssoc(Ok([w]), Ok(ws[1..]), rest);
      assert [w] + ws[1..] == ws;
    }
  }

  lemma TokensOneWordThen(w: string, post: string)
    requires IsPlainWord(w)
    requires post == [] || IsBlank(post[0])
    ensures TokensFrom(w + post, Unquoted, None) == Append(Ok([w]), TokensFrom(post, Unquoted, None))
  {
    assert Text(None) + w == w;
    TokensExtendWord(w, None, post);
    if post == [] {
      assert [w] + [] == [w];
    } else {
      assert TokensFrom(post, Unquoted, Some(w)) == Cons(w, TokensFrom(post[1..], Unquoted, None));
      assert post == [post[0]] + post[1..];
      TokensSkipBlanks([post[0]], post[1..]);
    }
  }

  lemma TokensWordThenSpace(w: string, more: string)
    requires IsPlainWord(w)
    ensures TokensFrom(w + ([' '] + more), Unquoted, None) == Cons(w, TokensFrom(more, Unquoted, None))
  {
    assert Text(None) + w == w;
    TokensExtendWord(w, None, [' '] + more);
    TokensAfterSpace(w, more);
  }

  lemma TokensJoinWords(ws: seq<string>, post: string)
    requires forall j :: 0 <= j < |ws| ==> IsPlainWord(ws[j])
    requires IsBlanks(post)
    ensures TokensFrom(JoinWords(ws) + post, Unquoted, None) == Ok(ws)
  {
    TokensJoinThen(ws, post);
    TokensSkipBlanks(post, []);
    assert post + [] == post;
    assert ws + [] == ws;
  }

  /** Inside a quoted run every character but the closing quote is kept. */
  lemma {:induction false} TokensInQuote(q: string, open: char, t: string, x: string)
    requires forall i :: 0 <= i < |q| ==> q[i] != open
    ensures TokensFrom(q + x, In(open), Some(t)) == TokensFrom(x, In(open), Some(t + q))
    decreases |q|
  {
    if q == [] {
      assert q + x == x && t + q == t;
    } else {
      assert (q + x)[0] == q[0] && (q + x)[1..] == q[1..] + x;
      TokensInQuote(q[1..], open, t + [q[0]], x);
      assert t + [q[0]] + q[1..] == t + q;
    }
  }

  /** A blank followed by `q` between two `open` quotes: a quoted argument. */
  function QuotedArgument(open: char, q: string): string { [' ', open] + q + [open] }

  lemma QuotedShape(open: char, q: string)
    ensures QuotedArgument(open, q) == [' '] + ([open] + (q + [open]))
    ensures QuotedArgument(open, q)[0] == ' '
  {
  }

  /** A quoted pattern after plain words is one token, quotes removed,
      blanks and connectors inside it kept; either quote character. */
  lemma TokensOfWordsThenQuoted(ws: seq<string>, open: char, q: string)
    requires forall j :: 0 <= j < |ws| ==> IsPlainWord(ws[j])
    requires IsQuote(open) && forall i :: 0 <= i < |q| ==> q[i] != open
    ensures Tokens(JoinWords(ws) + QuotedArgument(open, q)) == Ok(ws + [q])
  {
    QuotedShape(open, q);
    TokensJoinThen(ws, QuotedArgument(open, q));
    TokensQuoted(open, q);
  }

  lemma TokensQuoted(open: char, q: string)
    requires IsQuote(open) && forall i :: 0 <= i < |q| ==> q[i] != open
    ensures TokensFrom(QuotedArgument(open, q), Unquoted, None) == Ok([q])
  {
    QuotedShape(open, q);
    TokensSkipBlanks([' '], [open] + (q + [open]));
    TokensOpenQuote(open, q + [open]);
    TokensInQuote(q, open, [], [open]);
    assert [] + q == q;
    TokensCloseQuote(open, q);
  }

  lemma TokensOpenQuote(open: char, x: string)
    requires IsQuote(open)
    ensures TokensFrom([open] + x, Unquoted, None) == TokensFrom(x, In(open), Some([]))
  {
    assert ([open] + x)[0] == open && ([open] + x)[1..] == x;
  }

  lemma TokensCloseQuote(open: char, q: string)
    ensures TokensFrom([open], In(open), Some(q)) == Ok([q])
  {
    assert [open][1..] == [];
  }

  /** One character that is neither refused nor a cutting connector joins
      the segment. */
  lemma CutStep(c: char, x: string, q: Quote)
    requires !IsUnsupported(c) && !(q.Unquoted? && IsConnector(c))
    ensures CutFrom([c] + x, q) == Push(c, CutFrom(x, Next(q, c)))
  {
    assert ([c] + x)[0] == c && ([c] + x)[1..] == x;
  }

  lemma ConsShape(w: string, x: string)
    requires w != []
    ensures w + x == [w[0]] + (w[1..] + x)
  {
  }

  /** Characters that neither cut, quote nor are refused pass into the
      segment under construction. */
  lemma {:induction false} CutQuietThen(w: string, x: string, seg: string, rest: Option<string>)
    requires forall i :: 0 <= i < |w| ==> IsQuiet(w[i])
    requires CutFrom(x, Unquoted) == Ok(Piece(seg, rest))
    ensures CutFrom(w + x, Unquoted) == Ok(Piece(w + seg, rest))
    decreases |w|
  {
    if w == [] {
      assert w + x == x && w + seg == seg;
    } else {
      var c, v := w[0], w[1..];
      ConsShape(w, x);
      ConsShape(w, seg);
      CutQuietThen(v, x, seg, rest);
      CutStep(c, v + x, Unquoted);
    }
  }

  /** Inside a quoted run nothing cuts, connectors included. */
  lemma {:induction false} CutInQuote(q: string, open: char, x: string, seg: string, rest: Option<string>)
    requires forall i :: 0 <= i < |q| ==> q[i] != open && !IsUnsupported(q[i])
    requires CutFrom(x, In(open)) == Ok(Piece(seg, rest))
    ensures CutFrom(q + x, In(open)) == Ok(Piece(q + seg, rest))
    decreases |q|
  {
    if q == [] {
      assert q + x == x && q + seg == seg;
    } else {
      var c, v := q[0], q[1..];
      ConsShape(q, x);
      ConsShape(q, seg);
      CutInQuote(v, open, x, seg, rest);
      CutStep(c, v + x, In(open));
    }
  }

  lemma CutOpenQuote(open: char, x: string, seg: string, rest: Option<string>)
    requires IsQuote(open)
    requires CutFrom(x, In(open)) == Ok(Piece(seg, rest))
    ensures CutFrom([open] + x, Unquoted) == Ok(Piece([open] + seg, rest))
  {
    assert ([open] + x)[0] == open && ([open] + x)[1..] == x;
  }

  lemma CutCloseQuote(open: char)
    requires IsQuote(open)
    ensures CutFrom([open], In(open)) == Ok(Piece([open], None))
  {
    assert [open][1..] == [];
  }

  /** A quoted argument makes no cut, whatever connectors it holds. */
  lemma CutQuoted(open: char, q: string)
    requires IsQuote(open)
    requires forall i :: 0 <= i < |q| ==> q[i] != open && !IsUnsupported(q[i])
    ensures CutFrom(QuotedArgument(open, q), Unquoted) == Ok(Piece(QuotedArgument(open, q), None))
  {
    CutQuotedRun(open, q);
    CutQuietThen([' '], [open] + (q + [open]), [open] + (q + [open]), None);
    QuotedShape(open, q);
  }

  lemma CutQuotedRun(open: char, q: string)
    requires IsQuote(open)
    requires forall i :: 0 <= i < |q| ==> q[i] != open && !IsUnsupported(q[i])
    ensures CutFrom([open] + (q + [open]), Unquoted) == Ok(Piece([open] + (q + [open]), None))
  {
    CutCloseQuote(open);
    CutInQuote(q, open, [open], [open], None);
    CutOpenQuote(open, q + [open], q + [open], None);
  }

  /** Plain words followed by a quoted pattern are one segment: a connector
      inside the quotes, as in `'a|b'` or `"a;b"`, does not cut the line. */
  lemma SegmentsOfWordsThenQuoted(ws: seq<string>, open: char, q: string)
    requires forall j :: 0 <= j < |ws| ==> IsPlainWord(ws[j])
    requires IsQuote(open)
    requires forall i :: 0 <= i < |q| ==> q[i] != open && !IsUnsupported(q[i])
    ensures Segments(JoinWords(ws) + QuotedArgument(open, q)) == Ok([JoinWords(ws) + QuotedArgument(open, q)])
  {
    CutQuoted(open, q);
    JoinWordsQuiet(ws);
    CutQuietThen(JoinWords(ws), QuotedArgument(open, q), QuotedArgument(open, q), None);
  }

  /** Such a line invokes the program its first word names, once, with the
      whole line as its segment. */
  lemma QuotedPatternInvocation(ws: seq<string>, open: char, q: string)
    requires forall j :: 0 <= j < |ws| ==> IsPlainWord(ws[j])
    requires IsQuote(open)
    requires forall i :: 0 <= i < |q| ==> q[i] != open && !IsUnsupported(q[i])
    requires ws != [] && !IsFlag(ws[0]) && !IsAssignment(ws[0]) && Basename(ws[0]) != []
    ensures Invocations(JoinWords(ws) + QuotedArgument(open, q)) ==
              Ok([Invocation(Basename(ws[0]), JoinWords(ws) + QuotedArgument(open, q))])
  {
    var line := JoinWords(ws) + QuotedArgument(open, q);
    SegmentsOfWordsThenQuoted(ws, open, q);
    SingleSegment(line);
    TokensOfWordsThenQuoted(ws, open, q);
    assert (ws + [q])[0] == ws[0];
    SegmentInvocationOfTokens(line, ws + [q]);
  }

  lemma TokensAfterSpace(w: string, more: string)
    ensures TokensFrom([' '] + more, Unquoted, Some(w)) == Cons(w, TokensFrom(more, Unquoted, None))
  {
    assert ([' '] + more)[1..] == more;
  }

  /** Round trip: tokenizing plain words separated by single spaces, with
      blanks around them, gives the words back. */
  lemma TokensOfWords(pre: string, ws: seq<string>, post: string)
    requires forall j :: 0 <= j < |ws| ==> IsPlainWord(ws[j])
    requires IsBlanks(pre) && IsBlanks(post)
    ensures Tokens(pre + JoinWords(ws) + post) == Ok(ws)
  {
    PaddedShape(pre, JoinWords(ws), post);
    TokensSkipBlanks(pre, JoinWords(ws) + post);
    TokensJoinWords(ws, post);
  }

  lemma PaddedShape(pre: string, x: string, post: string)
    ensures pre + x + post == pre + (x + post)
  {
  }

  lemma PaddedWordsQuiet(pre: string, ws: seq<string>, post: string)
    requires forall j :: 0 <= j < |ws| ==> IsPlainWord(ws[j])
    requires IsBlanks(pre) && IsBlanks(post)
    ensures forall i :: 0 <= i < |pre + JoinWords(ws) + post| ==> IsQuiet((pre + JoinWords(ws) + post)[i])
  {
    var line := pre + JoinWords(ws) + post;
    JoinWordsQuiet(ws);
    forall i | 0 <= i < |line| ensures IsQuiet(line[i]) {
      if i < |pre| {
        assert line[i] == pre[i];
      } else if i < |pre| + |JoinWords(ws)| {
        assert line[i] == JoinWords(ws)[i - |pre|];
      } else {
        assert line[i] == post[i - |pre| - |JoinWords(ws)|];
      }
    }
  }

  /** A line with no connector, quote or refused character is one segment. */
  lemma QuietLine(line: string)
    requires forall i :: 0 <= i < |line| ==> IsQuiet(line[i])
    ensures Segments(line) == Ok([line])
    ensures Invocations(line) == SegmentInvocation(line)
  {
    CutQuiet(line);
    assert Cut(line) == Ok(Piece(line, None));
    assert Segments(line) == Ok([line]);
    SingleSegment(line);
  }

  lemma SingleSegment(seg: string)
    ensures InvocationsOf([seg]) == SegmentInvocation(seg)
  {
    assert [seg][1..] == [];
    var r := SegmentInvocation(seg);
    if r.Ok? {
      assert r.value + [] == r.value;
    }
  }

  /** The first of the tokens `ts` is a command token: no flag, no
      assignment, and it names a program. */
  predicate NamesProgram(ts: seq<string>)
  {
    ts != [] && !IsFlag(ts[0]) && !IsAssignment(ts[0]) && Basename(ts[0]) != []
  }

  /** What a segment invokes, given its tokens. */
  lemma SegmentInvocationOfTokens(seg: string, ts: seq<string>)
    requires Tokens(seg) == Ok(ts)
    ensures ts == [] ==> SegmentInvocation(seg) == Ok([])
    ensures ts != [] && !NamesProgram(ts) ==> SegmentInvocation(seg).Err?
    ensures NamesProgram(ts) ==> SegmentInvocation(seg) == Ok([Invocation(Basename(ts[0]), seg)])
  {
  }

  /** A segment of plain words invokes the program named by its command
      token, whatever the arguments after it; when its first word is a flag,
      an assignment or a bare directory, it is refused. */
  lemma SegmentOfWords(pre: string, ws: seq<string>, post: string)
    requires forall j :: 0 <= j < |ws| ==> IsPlainWord(ws[j])
    requires IsBlanks(pre) && IsBlanks(post)
    ensures Segments(pre + JoinWords(ws) + post) == Ok([pre + JoinWords(ws) + post])
    ensures ws == [] ==> Invocations(pre + JoinWords(ws) + post) == Ok([])
    ensures ws != [] && !NamesProgram(ws) ==> Invocations(pre + JoinWords(ws) + post).Err?
    ensures NamesProgram(ws) ==>
              Invocations(pre + JoinWords(ws) + post) == Ok([Invocation(Basename(ws[0]), pre + JoinWords(ws) + post)])
  {
    var line := pre + JoinWords(ws) + post;
    PaddedWordsQuiet(pre, ws, post);
    QuietLine(line);
    TokensOfWords(pre, ws, post);
    SegmentInvocationOfTokens(line, ws);
  }

  /** The same, for a line spelled as those words between blanks. */
  lemma LineOfWords(pre: string, ws: seq<string>, post: string, line: string)
    requires forall j :: 0 <= j < |ws| ==> IsPlainWord(ws[j])
    requires IsBlanks(pre) && IsBlanks(post)
    requires pre + JoinWords(ws) + post == line
    requires NamesProgram(ws)
    ensures Invocations(line) == Ok([Invocation(Basename(ws[0]), line)])
  {
    SegmentOfWords(pre, ws, post);
  }

  /** In particular, a command of plain words with nothing around it. */
  lemma WordsInvocation(ws: seq<string>)
    requires forall j :: 0 <= j < |ws| ==> IsPlainWord(ws[j])
    ensures ws != [] && !NamesProgram(ws) ==> Invocations(JoinWords(ws)).Err?
    ensures NamesProgram(ws) ==> Invocations(JoinWords(ws)) == Ok([Invocation(Basename(ws[0]), JoinWords(ws))])
  {
    var line := JoinWords(ws);
    JoinWordsQuiet(ws);
    TokensJoinWords(ws, []);
    assert line + [] == line;
    QuietCommand(line, ws);
  }

  /** A quiet segment invokes the name of its command token, and is refused
      when its first token is a flag, assigns a variable or names no program. */
  lemma QuietCommand(line: string, ts: seq<string>)
    requires forall i :: 0 <= i < |line| ==> IsQuiet(line[i])
    requires Tokens(line) == Ok(ts)
    ensures ts != [] && !NamesProgram(ts) ==> Invocations(line).Err?
    ensures NamesProgram(ts) ==> Invocations(line) == Ok([Invocation(Basename(ts[0]), line)])
  {
    QuietLine(line);
    SegmentInvocationOfTokens(line, ts);
  }

  lemma BasenameSnoc(t: string, c: char)
    ensures Basename(t + [c]) == if c == '/' then [] else Basename(t) + [c]
  {
    assert (t + [c])[..|t|] == t;
  }

  /** A path-qualified command is reduced to its last path component. */
  lemma {:induction false} BasenameOfPath(dir: string, n: string)
    requires forall i :: 0 <= i < |n| ==> n[i] != '/'
    ensures Basename(dir + "/" + n) == n
    decreases |n|
  {
    if n == [] {
      BasenameSnoc(dir, '/');
      assert dir + "/" + n == dir + ['/'];
    } else {
      var m, c := n[..|n| - 1], n[|n| - 1];
      assert n == m + [c];
      assert forall i :: 0 <= i < |m| ==> m[i] == n[i];
      assert c != '/';
      assert dir + "/" + n == (dir + "/" + m) + [c];
      BasenameSnoc(dir + "/" + m, c);
      BasenameOfPath(dir, m);
      assert Basename(dir + "/" + m) + [c] == m + [c];
    }
  }

  /** Extraction keeps only the program name of a segment and drops its
      arguments. */
  lemma ArgumentsDropped(pre: string, ws: seq<string>, post: string)
    requires forall j :: 0 <= j < |ws| ==> IsPlainWord(ws[j])
    requires IsBlanks(pre) && IsBlanks(post)
    requires NamesProgram(ws)
    ensures ExtractCommands(pre + JoinWords(ws) + post) == Ok([Basename(ws[0])])
  {
    SegmentOfWords(pre, ws, post);
    var inv := Invocation(Basename(ws[0]), pre + JoinWords(ws) + post);
    assert Programs([inv]) == [inv.program];
  }

  /** A name without a slash is its own basename. */
  lemma {:induction false} BasenameOfName(n: string)
    requires forall i :: 0 <= i < |n| ==> n[i] != '/'
    ensures Basename(n) == n
    decreases |n|
  {
    if n != [] {
      var m, c := n[..|n| - 1], n[|n| - 1];
      assert n == m + [c];
      BasenameSnoc(m, c);
      BasenameOfName(m);
    }
  }
}
