/** The start conditions and the line output of the C and yacc scanner, where comment
    markup is opened and closed line by line. */
module Markup {
  datatype Cond = C | CComment | CppComment | ShellComment | Str | Literal | PreprocessorLine
                | YaccDeclarations | YaccRules | YaccPrologue | BracedCode

  /** The rules that change the start condition or end a line; Plain is any other. */
  datatype Rule = BackslashNewline | OpenComment | CloseComment | LineComment
                | OpenString | CloseString | OpenLiteral | CloseLiteral | Directive
                | OpenBrace | CloseBrace | OpenPrologue | ClosePrologue | NextSection
                | Newline | Plain

  datatype Token = Token(rule: Rule, text: string)

  datatype Option<T> = None | Some(value: T)

  predicate IsComment(c: Cond) {
    c == CComment || c == CppComment || c == ShellComment
  }

  predicate IsBase(c: Cond) {
    c == C || c == YaccDeclarations || c == YaccRules
  }

  /** Where comments, strings and literals may begin. */
  predicate IsCode(c: Cond) {
    IsBase(c) || c == PreprocessorLine || c == YaccPrologue || c == BracedCode
  }

  /** The start conditions in which the patterns of the scanner allow a rule. */
  predicate Enabled(r: Rule, c: Cond) {
    match r
    case OpenComment | LineComment | OpenString | OpenLiteral => IsCode(c)
    case CloseComment => c == CComment
    case CloseString => c == Str
    case CloseLiteral => c == Literal
    case Directive => c == C || c == YaccPrologue || c == BracedCode
    case OpenBrace => c == YaccDeclarations || c == YaccRules || c == BracedCode
    case CloseBrace => c == BracedCode
    case OpenPrologue => c == YaccDeclarations
    case ClosePrologue => c == YaccPrologue
    case NextSection => c == YaccDeclarations || c == YaccRules
    case BackslashNewline | Newline | Plain => true
  }

  // ----- what the scanner is to do: nested frames and shaded lines -----

  /** A piece of source text, and whether it belongs to a comment. */
  datatype Shade = Shade(text: string, comment: bool)

  /** The frames of one file, the innermost last, each brace of yacc code a frame of
      its own; the line so far and the lines before it. */
  datatype Doc = Doc(frames: seq<Cond>, line: seq<Shade>, lines: seq<seq<Shade>>)

  function Last<T>(s: seq<T>): T
    requires s != []
  {
    s[|s| - 1]
  }

  function Pop(f: seq<Cond>): seq<Cond> {
    if |f| > 1 then f[..|f| - 1] else f
  }

  /** A newline ends the comments and strings that are one line long. */
  function EndPhrase(f: seq<Cond>): (g: seq<Cond>)
    requires f != []
    ensures g != []
  {
    var c := Last(f);
    if c == CppComment || c == ShellComment || c == Str || c == Literal then Pop(f) else f
  }

  function EndDirective(f: seq<Cond>): (g: seq<Cond>)
    requires f != []
    ensures g != []
  {
    if Last(f) == PreprocessorLine then Pop(f) else f
  }

  /** And then a directive. */
  function EndLine(f: seq<Cond>): (g: seq<Cond>)
    requires f != []
    ensures g != []
  {
    EndDirective(EndPhrase(f))
  }

  function NextFrames(f: seq<Cond>, r: Rule): (g: seq<Cond>)
    requires f != []
    ensures g != []
  {
    match r
    case OpenComment => f + [CComment]
    case LineComment => f + [CppComment]
    case OpenString => f + [Str]
    case OpenLiteral => f + [Literal]
    case Directive => f + [PreprocessorLine]
    case OpenBrace => f + [BracedCode]
    case OpenPrologue => f + [YaccPrologue]
    case CloseComment | CloseString | CloseLiteral | CloseBrace | ClosePrologue => Pop(f)
    case NextSection => f[..|f| - 1] + [if Last(f) == YaccDeclarations then YaccRules else C]
    case Newline => EndLine(f)
    case BackslashNewline | Plain => f
  }

  const BACKSLASH: string := "\\"

  function NextDoc(d: Doc, tok: Token): Doc
    requires d.frames != []
  {
    var f := NextFrames(d.frames, tok.rule);
    var comment := IsComment(Last(d.frames)) || tok.rule == OpenComment || tok.rule == LineComment;
    match tok.rule
    case Newline => Doc(f, [], d.lines + [d.line])
    case BackslashNewline => Doc(f, [], d.lines + [d.line + [Shade(BACKSLASH, comment)]])
    case _ => Doc(f, d.line + [Shade(tok.text, comment)], d.lines)
  }

  /** Which frame may lie directly on which. */
  predicate MayPush(lower: Cond, upper: Cond) {
    match upper
    case CComment | CppComment | Str | Literal => IsCode(lower)
    case PreprocessorLine => lower == C || lower == YaccPrologue || lower == BracedCode
    case BracedCode => lower == YaccDeclarations || lower == YaccRules || lower == BracedCode
    case YaccPrologue => lower == YaccDeclarations
    case _ => false
  }

  /** The frame at i may lie on the one below it. */
  predicate Lies(f: seq<Cond>, i: int)
    requires 0 < i < |f|
  {
    MayPush(f[i - 1], f[i])
  }

  predicate FramesOk(f: seq<Cond>) {
    f != [] && IsBase(f[0]) && forall i {:trigger Lies(f, i)} :: 0 < i < |f| ==> Lies(f, i)
  }

  lemma FramesPush(f: seq<Cond>, c: Cond)
    requires FramesOk(f) && MayPush(Last(f), c)
    ensures FramesOk(f + [c])
  {
    forall i | 0 < i < |f + [c]| ensures Lies(f + [c], i) {
      assert i < |f| ==> Lies(f, i);
    }
  }

  lemma FramesPop(f: seq<Cond>)
    requires FramesOk(f)
    ensures FramesOk(Pop(f))
  {
    forall i | 0 < i < |Pop(f)| ensures Lies(Pop(f), i) {
      assert Lies(f, i);
    }
  }

  /** Every enabled rule keeps the frames well formed, and never pops the last one. */
  lemma NextFramesOk(f: seq<Cond>, r: Rule)
    requires FramesOk(f) && Enabled(r, Last(f))
    ensures FramesOk(NextFrames(f, r))
    ensures r in {CloseComment, CloseString, CloseLiteral, CloseBrace, ClosePrologue} ==> |f| > 1
  {
    FramesPop(f);
    FramesPop(EndPhrase(f));
    assert |f| > 1 ==> Lies(f, |f| - 1);
    if r in {OpenComment, LineComment, OpenString, OpenLiteral, Directive, OpenBrace, OpenPrologue} {
      FramesPush(f, Last(NextFrames(f, r)));
    }
  }

  /** After a newline no frame of one line is left: the next line starts in code or in
      a comment that began with a slash and a star. */
  lemma NewlineEndsLine(f: seq<Cond>)
    requires FramesOk(f)
    ensures var c := Last(NextFrames(f, Newline)); c == CComment || (IsCode(c) && c != PreprocessorLine)
  {
    assert |f| > 1 ==> Lies(f, |f| - 1);
    assert |f| > 2 ==> Lies(f, |f| - 2);
  }

  /** A comment, string, literal or directive always lies on another frame, and a
      comment, string or literal always on code. */
  lemma FramesAbove(f: seq<Cond>)
    requires FramesOk(f)
    ensures !IsBase(Last(f)) ==> |f| > 1 && MayPush(Last(Pop(f)), Last(f))
  {
    assert |f| > 1 ==> Lies(f, |f| - 1);
  }

  /** Comment frames come and go only with the rules that write comment markup. */
  lemma OpenAfter(f: seq<Cond>, r: Rule)
    requires FramesOk(f) && Enabled(r, Last(f)) && r != Newline
    ensures IsComment(Last(NextFrames(f, r))) ==
            ((IsComment(Last(f)) || r == OpenComment || r == LineComment) && r != CloseComment)
  {
    FramesAbove(f);
  }

  // ----- whole files -----

  /** The first k tokens, read from d on. */
  function Run(d: Doc, tokens: seq<Token>, k: nat): (r: Doc)
    requires d.frames != [] && k <= |tokens|
    ensures r.frames != []
  {
    if k == 0 then d else NextDoc(Run(d, tokens, k - 1), tokens[k - 1])
  }

  /** A new file: C and yacc sources begin in their own start conditions. */
  function FileStart(yacc: bool): (d: Doc)
    ensures FramesOk(d.frames)
  {
    Doc([if yacc then YaccDeclarations else C], [], [])
  }

  /** The token at k is one that the patterns allow there. */
  predicate AllowedAt(d: Doc, tokens: seq<Token>, k: nat)
    requires d.frames != [] && k < |tokens|
  {
    Enabled(tokens[k].rule, Last(Run(d, tokens, k).frames))
  }

  /** What the scanner can find in a file: every token is one that the patterns allow. */
  predicate Legal(d: Doc, tokens: seq<Token>)
    requires d.frames != []
  {
    forall k {:trigger AllowedAt(d, tokens, k)} :: 0 <= k < |tokens| ==> AllowedAt(d, tokens, k)
  }

  lemma {:induction false} RunFramesOk(d: Doc, tokens: seq<Token>, k: nat)
    requires FramesOk(d.frames) && k <= |tokens| && Legal(d, tokens)
    ensures FramesOk(Run(d, tokens, k).frames)
    decreases k
  {
    if k > 0 {
      RunFramesOk(d, tokens, k - 1);
      assert AllowedAt(d, tokens, k - 1);
      NextFramesOk(Run(d, tokens, k - 1).frames, tokens[k - 1].rule);
    }
  }

  /** The token at j opens a region, and none of those after it, up to k, closes it. */
  predicate Unclosed(tokens: seq<Token>, open: Rule, close: set<Rule>, j: nat, k: nat)
    requires j < k <= |tokens|
  {
    tokens[j].rule == open && forall m :: j < m < k ==> tokens[m].rule !in close
  }

  predicate InRegion(tokens: seq<Token>, open: Rule, close: set<Rule>, k: nat)
    requires k <= |tokens|
  {
    exists j {:trigger Unclosed(tokens, open, close, j, k)} :: 0 <= j < k && Unclosed(tokens, open, close, j, k)
  }

  lemma RegionGoesOn(tokens: seq<Token>, open: Rule, close: set<Rule>, k: nat)
    requires k < |tokens| && InRegion(tokens, open, close, k) && tokens[k].rule !in close
    ensures InRegion(tokens, open, close, k + 1)
  {
    var j :| 0 <= j < k && Unclosed(tokens, open, close, j, k);
    assert Unclosed(tokens, open, close, j, k + 1);
  }

  lemma RegionWentOn(tokens: seq<Token>, open: Rule, close: set<Rule>, k: nat)
    requires k < |tokens| && InRegion(tokens, open, close, k + 1) && tokens[k].rule != open
    ensures InRegion(tokens, open, close, k) && tokens[k].rule !in close
  {
    var j :| 0 <= j < k + 1 && Unclosed(tokens, open, close, j, k + 1);
    assert Unclosed(tokens, open, close, j, k);
  }

  lemma RegionStep(tokens: seq<Token>, open: Rule, close: set<Rule>, k: nat)
    requires k < |tokens| && open !in close
    ensures InRegion(tokens, open, close, k + 1) <==>
            tokens[k].rule == open || (InRegion(tokens, open, close, k) && tokens[k].rule !in close)
  {
    if tokens[k].rule == open {
      assert Unclosed(tokens, open, close, k, k + 1);
    } else if InRegion(tokens, open, close, k + 1) {
      RegionWentOn(tokens, open, close, k);
    } else if InRegion(tokens, open, close, k) && tokens[k].rule !in close {
      RegionGoesOn(tokens, open, close, k);
    }
  }

  /** The same, token by token. */
  predicate Inside(tokens: seq<Token>, open: Rule, close: set<Rule>, k: nat)
    requires k <= |tokens|
  {
    k > 0 && (tokens[k - 1].rule == open || (Inside(tokens, open, close, k - 1) && tokens[k - 1].rule !in close))
  }

  lemma {:induction false} InsideIsInRegion(tokens: seq<Token>, open: Rule, close: set<Rule>, k: nat)
    requires k <= |tokens| && open !in close
    ensures Inside(tokens, open, close, k) <==> InRegion(tokens, open, close, k)
    decreases k
  {
    if k > 0 {
      InsideIsInRegion(tokens, open, close, k - 1);
      RegionStep(tokens, open, close, k - 1);
    }
  }

  /** Inside a comment of many lines, one of one line, a string, a literal. */
  predicate InComment(tokens: seq<Token>, k: nat)
    requires k <= |tokens|
  {
    InRegion(tokens, OpenComment, {CloseComment}, k)
  }

  predicate InLineComment(tokens: seq<Token>, k: nat)
    requires k <= |tokens|
  {
    InRegion(tokens, LineComment, {Newline}, k)
  }

  predicate InString(tokens: seq<Token>, k: nat)
    requires k <= |tokens|
  {
    InRegion(tokens, OpenString, {CloseString, Newline}, k)
  }

  predicate InLiteral(tokens: seq<Token>, k: nat)
    requires k <= |tokens|
  {
    InRegion(tokens, OpenLiteral, {CloseLiteral, Newline}, k)
  }

  /** How the two kinds of comment begin and end. */
  lemma CommentStep(f: seq<Cond>, r: Rule)
    requires FramesOk(f) && Enabled(r, Last(f))
    ensures var c := Last(NextFrames(f, r));
            && (c == CComment <==> r == OpenComment || (Last(f) == CComment && r != CloseComment))
            && (c == CppComment <==> r == LineComment || (Last(f) == CppComment && r != Newline))
            && c != ShellComment
  {
    NextFramesOk(f, r);
    assert |NextFrames(f, r)| > 1 ==> Lies(NextFrames(f, r), |NextFrames(f, r)| - 1);
    assert |f| > 1 ==> Lies(f, |f| - 1);
    assert |f| > 2 ==> Lies(f, |f| - 2);
  }

  /** How strings and literals do. */
  lemma StringStep(f: seq<Cond>, r: Rule)
    requires FramesOk(f) && Enabled(r, Last(f))
    ensures var c := Last(NextFrames(f, r));
            && (c == Str <==> r == OpenString || (Last(f) == Str && r != CloseString && r != Newline))
            && (c == Literal <==> r == OpenLiteral || (Last(f) == Literal && r != CloseLiteral && r != Newline))
  {
    NextFramesOk(f, r);
    assert |NextFrames(f, r)| > 1 ==> Lies(NextFrames(f, r), |NextFrames(f, r)| - 1);
    assert |f| > 1 ==> Lies(f, |f| - 1);
    assert |f| > 2 ==> Lies(f, |f| - 2);
  }

  // ----- the start condition, from the tokens alone -----

  /** The frames before each token and at the end. */
  type Trace = seq<seq<Cond>>

  predicate Stepped(t: Trace, tokens: seq<Token>, k: nat)
    requires k < |tokens| && |t| == |tokens| + 1
  {
    && FramesOk(t[k]) && FramesOk(t[k + 1]) && Enabled(tokens[k].rule, Last(t[k]))
    && t[k + 1] == NextFrames(t[k], tokens[k].rule)
  }

  /** Every token is allowed where it is. */
  ghost predicate IsTrace(t: Trace, tokens: seq<Token>) {
    && |t| == |tokens| + 1 && FramesOk(t[0])
    && forall k {:trigger Stepped(t, tokens, k)} :: 0 <= k < |tokens| ==> Stepped(t, tokens, k)
  }

  lemma TraceOk(t: Trace, tokens: seq<Token>, k: nat)
    requires IsTrace(t, tokens) && k <= |tokens|
    ensures FramesOk(t[k])
  {
    assert k > 0 ==> Stepped(t, tokens, k - 1);
  }

  lemma StepAt(t: Trace, tokens: seq<Token>, k: nat)
    requires IsTrace(t, tokens) && k < |tokens|
    ensures FramesOk(t[k]) && FramesOk(t[k + 1]) && Enabled(tokens[k].rule, Last(t[k])) && t[k + 1] == NextFrames(t[k], tokens[k].rule)
  {
    assert Stepped(t, tokens, k);
  }

  /** t[k] are the frames after k tokens. */
  predicate IsRunAt(d: Doc, tokens: seq<Token>, t: Trace, k: nat)
    requires d.frames != [] && k <= |tokens| && |t| == |tokens| + 1
  {
    t[k] == Run(d, tokens, k).frames
  }

  ghost predicate IsRun(d: Doc, tokens: seq<Token>, t: Trace)
    requires d.frames != []
  {
    |t| == |tokens| + 1 && forall k {:trigger IsRunAt(d, tokens, t, k)} :: 0 <= k <= |tokens| ==> IsRunAt(d, tokens, t, k)
  }

  lemma TraceOf(d: Doc, tokens: seq<Token>) returns (t: Trace)
    requires FramesOk(d.frames) && Legal(d, tokens)
    ensures IsTrace(t, tokens) && IsRun(d, tokens, t) && t[0] == d.frames
  {
    t := seq(|tokens| + 1, k requires 0 <= k <= |tokens| => Run(d, tokens, k).frames);
    forall k | 0 <= k < |tokens| ensures Stepped(t, tokens, k) {
      RunFramesOk(d, tokens, k);
      RunFramesOk(d, tokens, k + 1);
      assert AllowedAt(d, tokens, k);
    }
  }

  predicate CommentsAt(c: Cond, tokens: seq<Token>, k: nat)
    requires k <= |tokens|
  {
    && (c == CComment <==> Inside(tokens, OpenComment, {CloseComment}, k))
    && (c == CppComment <==> Inside(tokens, LineComment, {Newline}, k)) && c != ShellComment
  }

  lemma CommentsNext(f: seq<Cond>, tokens: seq<Token>, k: nat)
    requires k < |tokens| && FramesOk(f) && Enabled(tokens[k].rule, Last(f)) && CommentsAt(Last(f), tokens, k)
    ensures CommentsAt(Last(NextFrames(f, tokens[k].rule)), tokens, k + 1)
  {
    CommentStep(f, tokens[k].rule);
  }

  lemma {:induction false} CommentFrames(t: Trace, tokens: seq<Token>, k: nat)
    requires IsTrace(t, tokens) && IsCode(Last(t[0])) && k <= |tokens|
    ensures FramesOk(t[k]) && CommentsAt(Last(t[k]), tokens, k)
    decreases k
  {
    if k > 0 {
      CommentFrames(t, tokens, k - 1);
      StepAt(t, tokens, k - 1);
      CommentsNext(t[k - 1], tokens, k - 1);
    }
  }

  /** The start condition is that of a comment exactly inside the regions from an
      opening token to the next token that closes its kind: a comment of many lines
      ends at its closing token, one of one line at the newline, and nothing within
      a comment opens another. */
  lemma CommentsAreRegions(d: Doc, tokens: seq<Token>, k: nat)
    requires FramesOk(d.frames) && IsCode(Last(d.frames)) && k <= |tokens| && Legal(d, tokens)
    ensures var c := Last(Run(d, tokens, k).frames);
            (c == CComment <==> InComment(tokens, k)) && (c == CppComment <==> InLineComment(tokens, k)) && c != ShellComment
  {
    var t := TraceOf(d, tokens);
    CommentFrames(t, tokens, k);
    assert IsRunAt(d, tokens, t, k);
    InsideIsInRegion(tokens, OpenComment, {CloseComment}, k);
    InsideIsInRegion(tokens, LineComment, {Newline}, k);
  }

  predicate StringsAt(c: Cond, tokens: seq<Token>, k: nat)
    requires k <= |tokens|
  {
    && (c == Str <==> Inside(tokens, OpenString, {CloseString, Newline}, k))
    && (c == Literal <==> Inside(tokens, OpenLiteral, {CloseLiteral, Newline}, k))
  }

  lemma StringsNext(f: seq<Cond>, tokens: seq<Token>, k: nat)
    requires k < |tokens| && FramesOk(f) && Enabled(tokens[k].rule, Last(f)) && StringsAt(Last(f), tokens, k)
    ensures StringsAt(Last(NextFrames(f, tokens[k].rule)), tokens, k + 1)
  {
    StringStep(f, tokens[k].rule);
  }

  lemma {:induction false} StringFrames(t: Trace, tokens: seq<Token>, k: nat)
    requires IsTrace(t, tokens) && IsCode(Last(t[0])) && k <= |tokens|
    ensures FramesOk(t[k]) && StringsAt(Last(t[k]), tokens, k)
    decreases k
  {
    if k > 0 {
      StringFrames(t, tokens, k - 1);
      StepAt(t, tokens, k - 1);
      StringsNext(t[k - 1], tokens, k - 1);
    }
  }

  /** How many frames of a kind there are. */
  function CountOf(f: seq<Cond>, c: Cond): nat {
    if f == [] then 0 else CountOf(f[..|f| - 1], c) + if Last(f) == c then 1 else 0
  }

  lemma CountPush(f: seq<Cond>, x: Cond, c: Cond)
    ensures CountOf(f + [x], c) == CountOf(f, c) + if x == c then 1 else 0
  {
    assert (f + [x])[..|f|] == f;
  }

  lemma CountPop(f: seq<Cond>, c: Cond)
    requires |f| > 1
    ensures CountOf(f, c) == CountOf(Pop(f), c) + if Last(f) == c then 1 else 0
  {
  }

  lemma BaseAlone(f: seq<Cond>)
    requires FramesOk(f) && IsBase(Last(f))
    ensures |f| == 1
  {
    assert |f| > 1 ==> Lies(f, |f| - 1);
  }

  /** Which frames may be found below the innermost one. */
  lemma {:induction false} Below(f: seq<Cond>)
    requires FramesOk(f)
    ensures IsCode(Last(f)) ==> CountOf(f, PreprocessorLine) == if Last(f) == PreprocessorLine then 1 else 0
    ensures IsBase(Last(f)) || Last(f) == BracedCode ==> CountOf(f, YaccPrologue) == 0
    ensures IsBase(Last(f)) ==> CountOf(f, BracedCode) == 0
    ensures Last(f) == YaccPrologue ==> f == [YaccDeclarations, YaccPrologue] && CountOf(f, BracedCode) == 0
    decreases |f|
  {
    if |f| > 1 {
      assert Lies(f, |f| - 1);
      FramesPop(f);
      Below(Pop(f));
      if IsBase(Last(Pop(f))) {
        BaseAlone(Pop(f));
      }
      BelowStep(f);
    }
  }

  lemma BelowStep(f: seq<Cond>)
    requires FramesOk(f) && |f| > 1 && MayPush(Last(Pop(f)), Last(f)) && (IsBase(Last(Pop(f))) ==> |f| == 2)
    requires var g := Pop(f);
             && (IsCode(Last(g)) ==> CountOf(g, PreprocessorLine) == if Last(g) == PreprocessorLine then 1 else 0)
             && (IsBase(Last(g)) || Last(g) == BracedCode ==> CountOf(g, YaccPrologue) == 0)
             && (IsBase(Last(g)) ==> CountOf(g, BracedCode) == 0)
    ensures IsCode(Last(f)) ==> CountOf(f, PreprocessorLine) == if Last(f) == PreprocessorLine then 1 else 0
    ensures IsBase(Last(f)) || Last(f) == BracedCode ==> CountOf(f, YaccPrologue) == 0
    ensures IsBase(Last(f)) ==> CountOf(f, BracedCode) == 0
    ensures Last(f) == YaccPrologue ==> f == [YaccDeclarations, YaccPrologue] && CountOf(f, BracedCode) == 0
  {
    CountPop(f, PreprocessorLine);
    CountPop(f, YaccPrologue);
    CountPop(f, BracedCode);
  }

  /** The innermost frame, if it is code, from the kinds of frames that are there. */
  lemma CodeIs(f: seq<Cond>)
    requires FramesOk(f) && IsCode(Last(f))
    ensures Last(f) == if CountOf(f, PreprocessorLine) > 0 then PreprocessorLine
                       else if CountOf(f, YaccPrologue) > 0 then YaccPrologue
                       else if CountOf(f, BracedCode) > 0 then BracedCode
                       else f[0]
  {
    Below(f);
    if IsBase(Last(f)) {
      BaseAlone(f);
    }
  }

  /** What a newline leaves of the frames of each kind. */
  lemma NewlineCounts(f: seq<Cond>)
    requires FramesOk(f)
    ensures var g := EndLine(f);
            && (CountOf(g, PreprocessorLine) > 0 <==> CountOf(f, PreprocessorLine) > 0 && Last(f) == CComment)
            && CountOf(g, YaccPrologue) == CountOf(f, YaccPrologue)
            && CountOf(g, BracedCode) == CountOf(f, BracedCode) && g[0] == f[0]
  {
    FramesAbove(f);
    var e := EndPhrase(f);
    FramesPop(f);
    if e != f {
      CountPop(f, PreprocessorLine);
      CountPop(f, YaccPrologue);
      CountPop(f, BracedCode);
    }
    if Last(f) != CComment {
      NewlineDirective(e);
    }
  }

  lemma NewlineDirective(f: seq<Cond>)
    requires FramesOk(f) && IsCode(Last(f))
    ensures var g := EndDirective(f);
            && CountOf(g, PreprocessorLine) == 0 && CountOf(g, YaccPrologue) == CountOf(f, YaccPrologue)
            && CountOf(g, BracedCode) == CountOf(f, BracedCode) && g[0] == f[0]
  {
    Below(f);
    FramesAbove(f);
    if Last(f) == PreprocessorLine {
      CountPop(f, PreprocessorLine);
      CountPop(f, YaccPrologue);
      CountPop(f, BracedCode);
    }
  }

  lemma PushCounts(f: seq<Cond>, x: Cond)
    requires f != []
    ensures var g := f + [x];
            && CountOf(g, PreprocessorLine) == CountOf(f, PreprocessorLine) + (if x == PreprocessorLine then 1 else 0)
            && CountOf(g, YaccPrologue) == CountOf(f, YaccPrologue) + (if x == YaccPrologue then 1 else 0)
            && CountOf(g, BracedCode) == CountOf(f, BracedCode) + (if x == BracedCode then 1 else 0) && g[0] == f[0]
  {
    CountPush(f, x, PreprocessorLine);
    CountPush(f, x, YaccPrologue);
    CountPush(f, x, BracedCode);
  }

  lemma PopCounts(f: seq<Cond>)
    requires |f| > 1
    ensures var g, x := Pop(f), Last(f);
            && CountOf(f, PreprocessorLine) == CountOf(g, PreprocessorLine) + (if x == PreprocessorLine then 1 else 0)
            && CountOf(f, YaccPrologue) == CountOf(g, YaccPrologue) + (if x == YaccPrologue then 1 else 0)
            && CountOf(f, BracedCode) == CountOf(g, BracedCode) + (if x == BracedCode then 1 else 0) && g[0] == f[0]
  {
  }

  lemma OneFrame(f: seq<Cond>)
    requires |f| == 1 && IsBase(f[0])
    ensures CountOf(f, PreprocessorLine) == CountOf(f, YaccPrologue) == CountOf(f, BracedCode) == 0
  {
    assert f[..0] == [];
  }

  /** How a rule changes which kinds of frames there are. */
  predicate CountsStep(f: seq<Cond>, g: seq<Cond>, r: Rule)
    requires f != [] && g != []
  {
    && (CountOf(g, PreprocessorLine) > 0 <==>
          r == Directive || (CountOf(f, PreprocessorLine) > 0 && !(r == Newline && Last(f) != CComment)))
    && (CountOf(g, YaccPrologue) > 0 <==> r == OpenPrologue || (CountOf(f, YaccPrologue) > 0 && r != ClosePrologue))
    && CountOf(g, BracedCode) == CountOf(f, BracedCode) + BraceOf(r)
    && g[0] == if r == NextSection then AfterSection(f[0]) else f[0]
  }

  /** The frame that a rule opens, or closes. */
  function Opened(r: Rule): Option<Cond> {
    match r
    case OpenComment => Some(CComment)
    case LineComment => Some(CppComment)
    case OpenString => Some(Str)
    case OpenLiteral => Some(Literal)
    case Directive => Some(PreprocessorLine)
    case OpenBrace => Some(BracedCode)
    case OpenPrologue => Some(YaccPrologue)
    case _ => None
  }

  function Closed(r: Rule): Option<Cond> {
    match r
    case CloseComment => Some(CComment)
    case CloseString => Some(Str)
    case CloseLiteral => Some(Literal)
    case CloseBrace => Some(BracedCode)
    case ClosePrologue => Some(YaccPrologue)
    case _ => None
  }

  lemma OpenCounts(f: seq<Cond>, r: Rule, c: Cond)
    requires f != [] && Opened(r) == Some(c)
    ensures CountsStep(f, f + [c], r)
  {
    PushCounts(f, c);
  }

  lemma CloseCounts(f: seq<Cond>, r: Rule)
    requires FramesOk(f) && Closed(r) == Some(Last(f))
    ensures CountsStep(f, Pop(f), r)
  {
    FramesAbove(f);
    PopCounts(f);
    if Last(f) == YaccPrologue {
      Below(f);
      OneFrame(Pop(f));
    }
  }

  lemma SectionCounts(f: seq<Cond>)
    requires FramesOk(f) && Enabled(NextSection, Last(f))
    ensures CountsStep(f, NextFrames(f, NextSection), NextSection)
  {
    BaseAlone(f);
    OneFrame(f);
    OneFrame(NextFrames(f, NextSection));
  }

  lemma LineCounts(f: seq<Cond>)
    requires FramesOk(f)
    ensures CountsStep(f, EndLine(f), Newline)
  {
    NewlineCounts(f);
  }

  lemma NextIs(f: seq<Cond>, r: Rule)
    requires f != [] && Enabled(r, Last(f))
    ensures Opened(r).Some? ==> NextFrames(f, r) == f + [Opened(r).value]
    ensures Closed(r).Some? ==> Closed(r).value == Last(f) && NextFrames(f, r) == Pop(f)
    ensures Opened(r) == Closed(r) == None ==> r == Newline || r == NextSection || NextFrames(f, r) == f
  {
  }

  lemma NextCounts(f: seq<Cond>, r: Rule)
    requires FramesOk(f) && Enabled(r, Last(f))
    ensures CountsStep(f, NextFrames(f, r), r)
  {
    NextIs(f, r);
    if Opened(r).Some? {
      OpenCounts(f, r, Opened(r).value);
    } else if Closed(r).Some? {
      CloseCounts(f, r);
    } else if r == Newline {
      LineCounts(f);
    } else if r == NextSection {
      SectionCounts(f);
    }
  }

  function BraceOf(r: Rule): int {
    if r == OpenBrace then 1 else if r == CloseBrace then -1 else 0
  }

  function AfterSection(base: Cond): Cond {
    if base == YaccDeclarations then YaccRules else C
  }

  /** The directive at j has not ended: every newline since lies within a comment. */
  predicate Unended(tokens: seq<Token>, j: nat, k: nat)
    requires j < k <= |tokens|
  {
    && tokens[j].rule == Directive
    && forall m {:trigger InComment(tokens, m)} :: j < m < k && tokens[m].rule == Newline ==> InComment(tokens, m)
  }

  predicate InDirective(tokens: seq<Token>, k: nat)
    requires k <= |tokens|
  {
    exists j {:trigger Unended(tokens, j, k)} :: 0 <= j < k && Unended(tokens, j, k)
  }

  lemma DirectiveRegion(tokens: seq<Token>, k: nat)
    requires k < |tokens|
    ensures InDirective(tokens, k + 1) <==>
            tokens[k].rule == Directive || (InDirective(tokens, k) && !(tokens[k].rule == Newline && !InComment(tokens, k)))
  {
    if tokens[k].rule == Directive {
      assert Unended(tokens, k, k + 1);
    } else if InDirective(tokens, k + 1) {
      var j :| 0 <= j < k + 1 && Unended(tokens, j, k + 1);
      assert Unended(tokens, j, k);
    } else if InDirective(tokens, k) && !(tokens[k].rule == Newline && !InComment(tokens, k)) {
      var j :| 0 <= j < k && Unended(tokens, j, k);
      assert Unended(tokens, j, k + 1);
    }
  }

  /** The same, token by token. */
  predicate InsideDirective(tokens: seq<Token>, k: nat)
    requires k <= |tokens|
  {
    k > 0 && (tokens[k - 1].rule == Directive
              || (InsideDirective(tokens, k - 1)
                  && (tokens[k - 1].rule == Newline ==> Inside(tokens, OpenComment, {CloseComment}, k - 1))))
  }

  lemma {:induction false} InsideIsInDirective(tokens: seq<Token>, k: nat)
    requires k <= |tokens|
    ensures InsideDirective(tokens, k) <==> InDirective(tokens, k)
    decreases k
  {
    if k > 0 {
      InsideIsInDirective(tokens, k - 1);
      InsideIsInRegion(tokens, OpenComment, {CloseComment}, k - 1);
      DirectiveRegion(tokens, k - 1);
    }
  }

  predicate InPrologue(tokens: seq<Token>, k: nat)
    requires k <= |tokens|
  {
    InRegion(tokens, OpenPrologue, {ClosePrologue}, k)
  }

  /** How many braces of yacc code are open. */
  function Depth(tokens: seq<Token>, k: nat): int
    requires k <= |tokens|
  {
    if k == 0 then 0 else Depth(tokens, k - 1) + BraceOf(tokens[k - 1].rule)
  }

  /** The section of a file: C has one, yacc three. */
  function BaseAt(base: Cond, tokens: seq<Token>, k: nat): Cond
    requires k <= |tokens|
  {
    if k == 0 then base
    else if tokens[k - 1].rule == NextSection then AfterSection(BaseAt(base, tokens, k - 1))
    else BaseAt(base, tokens, k - 1)
  }

  /** Which frames there are, from the tokens. */
  predicate CountsAt(f: seq<Cond>, base: Cond, tokens: seq<Token>, k: nat)
    requires f != [] && k <= |tokens|
  {
    && (CountOf(f, PreprocessorLine) > 0 <==> InsideDirective(tokens, k))
    && (CountOf(f, YaccPrologue) > 0 <==> Inside(tokens, OpenPrologue, {ClosePrologue}, k))
    && CountOf(f, BracedCode) == Depth(tokens, k)
    && f[0] == BaseAt(base, tokens, k)
  }

  lemma CountsNext(f: seq<Cond>, g: seq<Cond>, base: Cond, tokens: seq<Token>, k: nat)
    requires f != [] && g != [] && k < |tokens| && CountsAt(f, base, tokens, k) && CountsStep(f, g, tokens[k].rule)
    requires Last(f) == CComment <==> Inside(tokens, OpenComment, {CloseComment}, k)
    ensures CountsAt(g, base, tokens, k + 1)
  {
  }

  lemma {:induction false} FrameKinds(t: Trace, tokens: seq<Token>, k: nat)
    requires IsTrace(t, tokens) && |t[0]| == 1 && k <= |tokens|
    ensures FramesOk(t[k]) && CountsAt(t[k], t[0][0], tokens, k)
    decreases k
  {
    if k == 0 {
      OneFrame(t[0]);
    } else {
      FrameKinds(t, tokens, k - 1);
      CommentFrames(t, tokens, k - 1);
      StepAt(t, tokens, k - 1);
      NextCounts(t[k - 1], tokens[k - 1].rule);
      CountsNext(t[k - 1], t[k], t[0][0], tokens, k - 1);
    }
  }

  /** The start condition after k tokens of a file. */
  function ConditionAt(base: Cond, tokens: seq<Token>, k: nat): Cond
    requires k <= |tokens|
  {
    if InComment(tokens, k) then CComment
    else if InLineComment(tokens, k) then CppComment
    else if InString(tokens, k) then Str
    else if InLiteral(tokens, k) then Literal
    else if InDirective(tokens, k) then PreprocessorLine
    else if InPrologue(tokens, k) then YaccPrologue
    else if Depth(tokens, k) > 0 then BracedCode
    else BaseAt(base, tokens, k)
  }

  /** The start condition is decided by the tokens alone: by the comment, the string or the
      literal that is open, then by the directive, the prologue or the braces, then by the
      section. */
  lemma ConditionIs(d: Doc, tokens: seq<Token>, k: nat)
    requires FramesOk(d.frames) && |d.frames| == 1 && k <= |tokens| && Legal(d, tokens)
    ensures Last(Run(d, tokens, k).frames) == ConditionAt(d.frames[0], tokens, k)
  {
    var t := TraceOf(d, tokens);
    assert IsRunAt(d, tokens, t, k);
    CommentFrames(t, tokens, k);
    StringFrames(t, tokens, k);
    FrameKinds(t, tokens, k);
    if IsCode(Last(t[k])) {
      CodeIs(t[k]);
    }
    InsideIsInRegion(tokens, OpenComment, {CloseComment}, k);
    InsideIsInRegion(tokens, LineComment, {Newline}, k);
    InsideIsInRegion(tokens, OpenString, {CloseString, Newline}, k);
    InsideIsInRegion(tokens, OpenLiteral, {CloseLiteral, Newline}, k);
    InsideIsInRegion(tokens, OpenPrologue, {ClosePrologue}, k);
    InsideIsInDirective(tokens, k);
  }

  // ----- what closes a frame, and what opened it -----

  /** A rule does not touch the frames below the innermost one that it leaves. */
  lemma KeepsBottom(f: seq<Cond>, r: Rule, n: nat)
    requires FramesOk(f) && Enabled(r, Last(f)) && 0 < n < |f| && n < |NextFrames(f, r)|
    ensures NextFrames(f, r)[..n + 1] == f[..n + 1]
  {
    NextIs(f, r);
    if r == NextSection {
      BaseAlone(f);
    }
  }

  /** A rule that makes the frames more than n opens one. */
  lemma Rises(f: seq<Cond>, r: Rule, n: nat)
    requires f != [] && Enabled(r, Last(f)) && |f| <= n < |NextFrames(f, r)|
    ensures |f| == n && Opened(r).Some? && NextFrames(f, r) == f + [Opened(r).value]
  {
    NextIs(f, r);
  }

  /** After m tokens, the first n + 1 frames are those after k tokens. */
  predicate SameBottom(t: Trace, tokens: seq<Token>, k: nat, n: nat, m: nat)
    requires |t| == |tokens| + 1 && m <= k <= |tokens| && n < |t[k]|
  {
    n < |t[m]| && t[m][..n + 1] == t[k][..n + 1]
  }

  /** Since j, the frame at n has been there, and below it the frames of j. */
  ghost predicate OpenSince(t: Trace, tokens: seq<Token>, k: nat, n: nat, j: nat)
    requires |t| == |tokens| + 1 && j < k <= |tokens| && n < |t[k]|
  {
    && t[j] == t[k][..n]
    && Opened(tokens[j].rule) == Some(t[k][n])
    && forall m {:trigger SameBottom(t, tokens, k, n, m)} :: j < m <= k ==> SameBottom(t, tokens, k, n, m)
  }

  lemma BottomBefore(t: Trace, tokens: seq<Token>, k: nat, n: nat, m: nat)
    requires IsTrace(t, tokens) && m < k <= |tokens| && 0 < n < |t[k]|
    requires SameBottom(t, tokens, k, n, m + 1) && n < |t[m]|
    ensures SameBottom(t, tokens, k, n, m)
  {
    StepAt(t, tokens, m);
    KeepsBottom(t[m], tokens[m].rule, n);
  }

  lemma OpenedAt(t: Trace, tokens: seq<Token>, k: nat, n: nat, m: nat)
    requires IsTrace(t, tokens) && m < k <= |tokens| && 0 < n < |t[k]|
    requires SameBottom(t, tokens, k, n, m + 1) && |t[m]| <= n
    ensures t[m] == t[k][..n]
    ensures Opened(tokens[m].rule) == Some(t[k][n])
  {
    StepAt(t, tokens, m);
    var after, last := t[m + 1], t[k];
    Rises(t[m], tokens[m].rule, n);
    assert after[..n + 1][n] == last[..n + 1][n] && last[..n] == last[..n + 1][..n] == after[..n + 1][..n];
  }

  /** The token that opened the frame at n. */
  lemma FindOpener(t: Trace, tokens: seq<Token>, k: nat, n: nat) returns (j: nat)
    requires IsTrace(t, tokens) && |t[0]| == 1 && k <= |tokens| && 0 < n < |t[k]|
    ensures j < k && OpenSince(t, tokens, k, n, j)
  {
    var i := k;
    while i > 0 && n < |t[i - 1]|
      invariant 0 < i <= k && forall m {:trigger SameBottom(t, tokens, k, n, m)} :: i <= m <= k ==> SameBottom(t, tokens, k, n, m)
      decreases i
    {
      BottomBefore(t, tokens, k, n, i - 1);
      i := i - 1;
    }
    assert SameBottom(t, tokens, k, n, i);
    j := i - 1;
    OpenedAt(t, tokens, k, n, j);
  }

  function OpenerOf(r: Rule): Rule
    requires Closed(r).Some?
  {
    match r
    case CloseComment => OpenComment
    case CloseString => OpenString
    case CloseLiteral => OpenLiteral
    case CloseBrace => OpenBrace
    case ClosePrologue => OpenPrologue
  }

  /** The token at k closes what the token at j opens: braces by their nesting, and of the
      others the last opening token before. */
  predicate Matches(tokens: seq<Token>, j: nat, k: nat)
    requires j < k < |tokens| && Closed(tokens[k].rule).Some?
  {
    && tokens[j].rule == OpenerOf(tokens[k].rule)
    && if tokens[k].rule == CloseBrace then
         Depth(tokens, k + 1) == Depth(tokens, j) && forall m :: j < m <= k ==> Depth(tokens, j) < Depth(tokens, m)
       else
         forall m :: j < m < k ==> tokens[m].rule != tokens[k].rule && tokens[m].rule != tokens[j].rule
  }

  /** Only braces lie within their like. */
  predicate Lone(c: Cond) {
    c == CComment || c == Str || c == Literal || c == YaccPrologue
  }

  lemma LoneFrame(f: seq<Cond>, n: nat)
    requires FramesOk(f) && n < |f| - 1 && Lone(f[n])
    ensures Last(f) != f[n]
  {
    assert Lies(f, n + 1);
    Below(f);
  }

  lemma {:induction false} CountOfPrefix(f: seq<Cond>, n: nat, c: Cond)
    requires n <= |f|
    ensures CountOf(f[..n], c) <= CountOf(f, c)
    decreases |f|
  {
    if n < |f| {
      CountOfPrefix(f[..|f| - 1], n, c);
      assert f[..|f| - 1][..n] == f[..n];
    } else {
      assert f[..n] == f;
    }
  }

  lemma LoneAt(t: Trace, tokens: seq<Token>, k: nat, n: nat, m: nat)
    requires IsTrace(t, tokens) && m <= k <= |tokens| && 0 < n < |t[k]|
    requires SameBottom(t, tokens, k, n, m) && Lone(t[k][n])
    ensures Last(t[m]) == t[k][n] ==> |t[m]| == n + 1
  {
    var g, last := t[m], t[k];
    TraceOk(t, tokens, m);
    assert g[..n + 1][n] == last[..n + 1][n];
    if |g| > n + 1 {
      LoneFrame(g, n);
    }
  }

  /** While a comment, string, literal or prologue is open, its kind neither closes nor opens. */
  lemma LoneStep(f: seq<Cond>, r: Rule, n: nat, c: Cond)
    requires f != [] && Enabled(r, Last(f)) && 0 < n < |f| && n < |NextFrames(f, r)|
    requires Last(f) == c ==> |f| == n + 1
    requires Last(NextFrames(f, r)) == c ==> |NextFrames(f, r)| == n + 1
    ensures Closed(r) != Some(c) && Opened(r) != Some(c)
  {
    NextIs(f, r);
  }

  lemma LoneStays(t: Trace, tokens: seq<Token>, k: nat, n: nat, m: nat)
    requires IsTrace(t, tokens) && m < k <= |tokens| && 0 < n < |t[k]|
    requires SameBottom(t, tokens, k, n, m) && SameBottom(t, tokens, k, n, m + 1) && Lone(t[k][n])
    ensures Closed(tokens[m].rule) != Some(t[k][n])
    ensures Opened(tokens[m].rule) != Some(t[k][n])
  {
    StepAt(t, tokens, m);
    LoneAt(t, tokens, k, n, m);
    LoneAt(t, tokens, k, n, m + 1);
    LoneStep(t[m], tokens[m].rule, n, t[k][n]);
  }

  lemma MatchOfLone(t: Trace, tokens: seq<Token>, k: nat, n: nat, j: nat)
    requires IsTrace(t, tokens) && j < k < |tokens| && 0 < n < |t[k]|
    requires OpenSince(t, tokens, k, n, j) && Lone(t[k][n])
    requires Closed(tokens[k].rule) == Some(t[k][n])
    ensures Matches(tokens, j, k)
  {
    forall m | j < m < k ensures tokens[m].rule != tokens[k].rule && tokens[m].rule != tokens[j].rule {
      assert SameBottom(t, tokens, k, n, m) && SameBottom(t, tokens, k, n, m + 1);
      LoneStays(t, tokens, k, n, m);
    }
  }

  /** Since the brace was opened, there has been one more open than before it. */
  lemma DeeperSince(t: Trace, tokens: seq<Token>, k: nat, n: nat, j: nat, m: nat)
    requires IsTrace(t, tokens) && |t[0]| == 1 && j < m <= k <= |tokens| && 0 < n < |t[k]|
    requires t[j] == t[k][..n]
    requires SameBottom(t, tokens, k, n, m) && t[k][n] == BracedCode
    ensures Depth(tokens, j) < Depth(tokens, m)
  {
    var before, g := t[j], t[m];
    FrameKinds(t, tokens, j);
    FrameKinds(t, tokens, m);
    assert g[..n + 1] == before + [BracedCode];
    CountPush(before, BracedCode, BracedCode);
    CountOfPrefix(g, n + 1, BracedCode);
  }

  lemma SameDepth(t: Trace, tokens: seq<Token>, j: nat, k: nat)
    requires IsTrace(t, tokens) && |t[0]| == 1 && j <= |tokens| && k <= |tokens|
    requires t[j] == t[k]
    ensures Depth(tokens, j) == Depth(tokens, k)
  {
    FrameKinds(t, tokens, j);
    FrameKinds(t, tokens, k);
  }

  lemma MatchOfBrace(t: Trace, tokens: seq<Token>, k: nat, n: nat, j: nat)
    requires IsTrace(t, tokens) && |t[0]| == 1 && j < k < |tokens| && 0 < n < |t[k]|
    requires OpenSince(t, tokens, k, n, j) && t[k][n] == BracedCode
    requires tokens[k].rule == CloseBrace && t[k + 1] == t[j]
    ensures Matches(tokens, j, k)
  {
    forall m | j < m <= k ensures Depth(tokens, j) < Depth(tokens, m) {
      assert SameBottom(t, tokens, k, n, m);
      DeeperSince(t, tokens, k, n, j, m);
    }
    SameDepth(t, tokens, j, k + 1);
  }

  lemma Popped(t: Trace, tokens: seq<Token>, k: nat)
    requires IsTrace(t, tokens) && k < |tokens| && Closed(tokens[k].rule).Some?
    ensures var before := t[k];
            && |before| > 1 && Closed(tokens[k].rule) == Some(before[|before| - 1])
            && t[k + 1] == before[..|before| - 1]
  {
    StepAt(t, tokens, k);
    NextIs(t[k], tokens[k].rule);
    FramesAbove(t[k]);
  }

  lemma FramesRestored(t: Trace, tokens: seq<Token>, k: nat) returns (j: nat)
    requires IsTrace(t, tokens) && |t[0]| == 1 && k < |tokens| && Closed(tokens[k].rule).Some?
    ensures j < k && Matches(tokens, j, k) && t[k + 1] == t[j]
  {
    Popped(t, tokens, k);
    var n := |t[k]| - 1;
    j := FindOpener(t, tokens, k, n);
    if tokens[k].rule == CloseBrace {
      MatchOfBrace(t, tokens, k, n, j);
    } else {
      MatchOfLone(t, tokens, k, n, j);
    }
  }

  /** A token that closes a frame brings back the frames, and with them the start condition,
      from before the token that it matches. */
  lemma CloserRestores(d: Doc, tokens: seq<Token>, k: nat) returns (j: nat)
    requires FramesOk(d.frames) && |d.frames| == 1 && Legal(d, tokens)
    requires k < |tokens| && Closed(tokens[k].rule).Some?
    ensures j < k && Matches(tokens, j, k) && Run(d, tokens, k + 1).frames == Run(d, tokens, j).frames
  {
    var t := TraceOf(d, tokens);
    j := FramesRestored(t, tokens, k);
    assert IsRunAt(d, tokens, t, j) && IsRunAt(d, tokens, t, k + 1);
  }

  // ----- what is shaded -----

  /** A token is part of a comment: it lies within one, or opens one. */
  predicate IsShaded(tokens: seq<Token>, k: nat)
    requires k < |tokens|
  {
    InComment(tokens, k) || InLineComment(tokens, k) || tokens[k].rule == OpenComment || tokens[k].rule == LineComment
  }

  /** What a token writes. */
  function ShadeOf(tok: Token, comment: bool): seq<Shade> {
    match tok.rule
    case Newline => []
    case BackslashNewline => [Shade(BACKSLASH, comment)]
    case _ => [Shade(tok.text, comment)]
  }

  /** What the first k tokens write, one after the other. */
  function ShadesTo(tokens: seq<Token>, k: nat): seq<Shade>
    requires k <= |tokens|
  {
    if k == 0 then [] else ShadesTo(tokens, k - 1) + ShadeOf(tokens[k - 1], IsShaded(tokens, k - 1))
  }

  function Joined(lines: seq<seq<Shade>>): seq<Shade> {
    if lines == [] then [] else Joined(lines[..|lines| - 1]) + Last(lines)
  }

  /** What a document holds, without its division into lines. */
  function AllShades(d: Doc): seq<Shade> {
    Joined(d.lines) + d.line
  }

  lemma JoinedAppend(lines: seq<seq<Shade>>, line: seq<Shade>)
    ensures Joined(lines + [line]) == Joined(lines) + line
  {
    assert (lines + [line])[..|lines|] == lines;
  }

  lemma JoinAssoc(a: seq<Shade>, b: seq<Shade>, c: seq<Shade>)
    ensures a + b + c == a + (b + c) && a + [] == a
  {
  }

  lemma NextShades(d: Doc, tok: Token, comment: bool)
    requires d.frames != []
    requires comment == (IsComment(Last(d.frames)) || tok.rule == OpenComment || tok.rule == LineComment)
    ensures AllShades(NextDoc(d, tok)) == AllShades(d) + ShadeOf(tok, comment)
  {
    var lines, line, piece := d.lines, d.line, ShadeOf(tok, comment);
    JoinAssoc(Joined(lines), line, piece);
    JoinAssoc(AllShades(d), [], []);
    JoinAssoc(line, [], []);
    match tok.rule {
      case Newline =>
        JoinedAppend(lines, line);
        JoinAssoc(Joined(lines + [line]), [], []);
      case BackslashNewline =>
        JoinedAppend(lines, line + piece);
        JoinAssoc(Joined(lines + [line + piece]), [], []);
      case _ =>
    }
  }

  /** So it was after every number of tokens up to k. */
  ghost predicate ShadedTo(start: seq<Shade>, d: Doc, tokens: seq<Token>, k: nat)
    requires d.frames != [] && k <= |tokens|
  {
    AllShades(Run(d, tokens, k)) == start + ShadesTo(tokens, k) && (k > 0 ==> ShadedTo(start, d, tokens, k - 1))
  }

  lemma {:induction false} ShadedStep(start: seq<Shade>, d: Doc, tokens: seq<Token>, k: nat)
    requires FramesOk(d.frames) && IsCode(Last(d.frames)) && Legal(d, tokens) && k < |tokens|
    requires ShadedTo(start, d, tokens, k)
    ensures ShadedTo(start, d, tokens, k + 1)
  {
    CommentsAreRegions(d, tokens, k);
    NextShades(Run(d, tokens, k), tokens[k], IsShaded(tokens, k));
    JoinAssoc(start, ShadesTo(tokens, k), ShadeOf(tokens[k], IsShaded(tokens, k)));
  }

  lemma {:induction false} AllShaded(start: seq<Shade>, d: Doc, tokens: seq<Token>, k: nat)
    requires FramesOk(d.frames) && IsCode(Last(d.frames)) && Legal(d, tokens) && k <= |tokens|
    requires ShadedTo(start, d, tokens, 0)
    ensures ShadedTo(start, d, tokens, k)
    decreases k
  {
    if k > 0 {
      AllShaded(start, d, tokens, k - 1);
      ShadedStep(start, d, tokens, k - 1);
    }
  }

  /** Every token is written once, in order, and with the markup of a comment exactly if it
      opens one or lies within one. */
  lemma ShadesAre(d: Doc, tokens: seq<Token>, k: nat)
    requires FramesOk(d.frames) && IsCode(Last(d.frames)) && Legal(d, tokens) && k <= |tokens|
    ensures AllShades(Run(d, tokens, k)) == AllShades(d) + ShadesTo(tokens, k)
  {
    JoinAssoc(AllShades(d), [], []);
    AllShaded(AllShades(d), d, tokens, k);
  }

  // ----- the text is kept -----

  const NEWLINE: string := "\n"

  /** The source text of a token. */
  function Source(tok: Token): string {
    match tok.rule
    case Newline => "\n"
    case BackslashNewline => "\\\n"
    case _ => tok.text
  }

  function SourceTo(tokens: seq<Token>, k: nat): string
    requires k <= |tokens|
  {
    if k == 0 then [] else SourceTo(tokens, k - 1) + Source(tokens[k - 1])
  }

  function LineText(line: seq<Shade>): string {
    if line == [] then [] else LineText(line[..|line| - 1]) + Last(line).text
  }

  function LinesText(lines: seq<seq<Shade>>): string {
    if lines == [] then [] else LinesText(lines[..|lines| - 1]) + LineText(Last(lines)) + NEWLINE
  }

  function DocText(d: Doc): string {
    LinesText(d.lines) + LineText(d.line)
  }

  lemma LineTextAppend(line: seq<Shade>, s: Shade)
    ensures LineText(line + [s]) == LineText(line) + s.text
  {
    assert (line + [s])[..|line|] == line;
  }

  lemma LinesTextAppend(lines: seq<seq<Shade>>, line: seq<Shade>)
    ensures LinesText(lines + [line]) == LinesText(lines) + LineText(line) + NEWLINE
  {
    assert (lines + [line])[..|lines|] == lines;
  }

  lemma Assoc(a: string, b: string, c: string)
    ensures a + b + c == a + (b + c)
  {
  }

  lemma NextDocText(d: Doc, tok: Token)
    requires d.frames != []
    ensures DocText(NextDoc(d, tok)) == DocText(d) + Source(tok)
  {
    var comment := IsComment(Last(d.frames)) || tok.rule == OpenComment || tok.rule == LineComment;
    match tok.rule {
      case Newline =>
        LinesTextAppend(d.lines, d.line);
      case BackslashNewline =>
        var line := d.line + [Shade(BACKSLASH, comment)];
        LineTextAppend(d.line, Shade(BACKSLASH, comment));
        LinesTextAppend(d.lines, line);
        Assoc(LinesText(d.lines), LineText(d.line), BACKSLASH);
        Assoc(DocText(d), BACKSLASH, NEWLINE);
      case _ =>
        LineTextAppend(d.line, Shade(tok.text, comment));
        Assoc(LinesText(d.lines), LineText(d.line), tok.text);
    }
  }

  lemma TextStep(start: string, before: Doc, after: Doc, source: string, next: string, tok: Token)
    requires before.frames != [] && after == NextDoc(before, tok) && next == source + Source(tok)
    requires DocText(before) == start + source
    ensures DocText(after) == start + next
  {
    NextDocText(before, tok);
    Assoc(start, source, Source(tok));
  }

  /** The text of every number of tokens up to k has been kept. */
  ghost predicate KeptTo(start: string, d: Doc, tokens: seq<Token>, k: nat)
    requires d.frames != [] && k <= |tokens|
  {
    DocText(Run(d, tokens, k)) == start + SourceTo(tokens, k) && (k > 0 ==> KeptTo(start, d, tokens, k - 1))
  }

  lemma {:induction false} KeptStep(start: string, d: Doc, tokens: seq<Token>, k: nat)
    requires d.frames != [] && k < |tokens| && KeptTo(start, d, tokens, k)
    ensures KeptTo(start, d, tokens, k + 1)
  {
    TextStep(start, Run(d, tokens, k), Run(d, tokens, k + 1), SourceTo(tokens, k), SourceTo(tokens, k + 1), tokens[k]);
  }

  lemma {:induction false} AllKept(start: string, d: Doc, tokens: seq<Token>, k: nat)
    requires d.frames != [] && k <= |tokens| && KeptTo(start, d, tokens, 0)
    ensures KeptTo(start, d, tokens, k)
    decreases k
  {
    if k > 0 {
      AllKept(start, d, tokens, k - 1);
      KeptStep(start, d, tokens, k - 1);
    }
  }

  /** The lines, without their markup, are the source text. */
  lemma TextIsKept(d: Doc, tokens: seq<Token>, k: nat)
    requires d.frames != [] && k <= |tokens|
    ensures DocText(Run(d, tokens, k)) == DocText(d) + SourceTo(tokens, k)
  {
    assert DocText(d) + [] == DocText(d);
    AllKept(DocText(d), d, tokens, k);
  }

  // ----- the text that is written -----

  /** The rules whose actions write a line. */
  predicate EndsLine(r: Rule) {
    r == Newline || r == BackslashNewline
  }

  /** Where the line that is unfinished after k tokens begins. */
  function LineStart(tokens: seq<Token>, k: nat): (j: nat)
    requires k <= |tokens|
    ensures j <= k
  {
    if k == 0 || EndsLine(tokens[k - 1].rule) then k else LineStart(tokens, k - 1)
  }

  lemma FinishedLines(d: Doc)
    requires d.line == []
    ensures DocText(d) == LinesText(d.lines)
  {
    assert LinesText(d.lines) + [] == LinesText(d.lines);
  }

  /** A rule that ends a line writes it, and the others write none. */
  lemma WrittenNext(before: Doc, after: Doc, tok: Token, written: string, source: string)
    requires before.frames != [] && after == NextDoc(before, tok)
    requires LinesText(before.lines) == written && DocText(after) == source
    ensures LinesText(after.lines) == if EndsLine(tok.rule) then source else written
  {
    if EndsLine(tok.rule) {
      FinishedLines(after);
    }
  }

  /** With nothing before the file, the text of its first k tokens. */
  lemma TextOf(d: Doc, tokens: seq<Token>, k: nat)
    requires d.frames != [] && d.line == [] && d.lines == [] && k <= |tokens|
    ensures DocText(Run(d, tokens, k)) == SourceTo(tokens, k)
  {
    TextIsKept(d, tokens, k);
    FinishedLines(d);
    assert [] + SourceTo(tokens, k) == SourceTo(tokens, k);
  }

  /** So it was after every number of tokens up to k. */
  ghost predicate WrittenTo(d: Doc, tokens: seq<Token>, k: nat)
    requires d.frames != [] && k <= |tokens|
  {
    LinesText(Run(d, tokens, k).lines) == SourceTo(tokens, LineStart(tokens, k)) && (k > 0 ==> WrittenTo(d, tokens, k - 1))
  }

  lemma {:induction false} WrittenStep(d: Doc, tokens: seq<Token>, k: nat)
    requires d.frames != [] && d.line == [] && d.lines == [] && k < |tokens| && WrittenTo(d, tokens, k)
    ensures WrittenTo(d, tokens, k + 1)
  {
    TextOf(d, tokens, k + 1);
    WrittenNext(Run(d, tokens, k), Run(d, tokens, k + 1), tokens[k],
                SourceTo(tokens, LineStart(tokens, k)), SourceTo(tokens, k + 1));
  }

  lemma {:induction false} AllWritten(d: Doc, tokens: seq<Token>, k: nat)
    requires d.frames != [] && d.line == [] && d.lines == [] && k <= |tokens| && WrittenTo(d, tokens, 0)
    ensures WrittenTo(d, tokens, k)
    decreases k
  {
    if k > 0 {
      AllWritten(d, tokens, k - 1);
      WrittenStep(d, tokens, k - 1);
    }
  }

  /** What has been written is the source text up to the unfinished line. */
  lemma WrittenIs(d: Doc, tokens: seq<Token>, k: nat)
    requires d.frames != [] && d.line == [] && d.lines == [] && k <= |tokens|
    ensures LinesText(Run(d, tokens, k).lines) == SourceTo(tokens, LineStart(tokens, k))
  {
    AllWritten(d, tokens, k);
  }

  /** No token is empty. */
  predicate NoneEmpty(tokens: seq<Token>) {
    forall i :: 0 <= i < |tokens| ==> tokens[i].text != []
  }

  lemma {:induction false} SourceGrows(tokens: seq<Token>, j: nat, k: nat)
    requires NoneEmpty(tokens) && j <= k <= |tokens|
    ensures |SourceTo(tokens, j)| + (k - j) <= |SourceTo(tokens, k)|
    decreases k - j
  {
    if j < k {
      SourceGrows(tokens, j, k - 1);
    }
  }

  /** Which text has been written is decided by where the unfinished line begins. */
  lemma WrittenFrom(tokens: seq<Token>, j: nat, k: nat)
    requires NoneEmpty(tokens) && j <= k <= |tokens|
    ensures SourceTo(tokens, j) == SourceTo(tokens, k) <==> j == k
  {
    SourceGrows(tokens, j, k);
  }

  /** The whole source text is written exactly if its last token ends a line: what comes
      after the last newline is dropped. */
  lemma AllIsWritten(d: Doc, tokens: seq<Token>)
    requires d.frames != [] && d.line == [] && d.lines == [] && NoneEmpty(tokens)
    ensures LinesText(Run(d, tokens, |tokens|).lines) == SourceTo(tokens, |tokens|)
       <==> tokens == [] || EndsLine(Last(tokens).rule)
  {
    WrittenIs(d, tokens, |tokens|);
    WrittenFrom(tokens, LineStart(tokens, |tokens|), |tokens|);
  }

  /** A file of one character and no newline: nothing is written. */
  lemma LastLineIsLost(yacc: bool)
    ensures var tokens := [Token(Plain, "x")];
            Legal(FileStart(yacc), tokens) && SourceTo(tokens, 1) == "x"
            && Run(FileStart(yacc), tokens, 1).lines == []
  {
    var tokens := [Token(Plain, "x")];
    assert SourceTo(tokens, 0) == [];
    assert [] + "x" == "x";
    assert Run(FileStart(yacc), tokens, 0) == FileStart(yacc);
  }

  /** What is known of the end of a file. */
  lemma FileIs(yacc: bool, tokens: seq<Token>)
    requires Legal(FileStart(yacc), tokens)
    ensures var d := Run(FileStart(yacc), tokens, |tokens|);
            && LinesText(d.lines) == SourceTo(tokens, LineStart(tokens, |tokens|))
            && AllShades(d) == ShadesTo(tokens, |tokens|)
            && Last(d.frames) == ConditionAt(if yacc then YaccDeclarations else C, tokens, |tokens|)
  {
    var d := FileStart(yacc);
    WrittenIs(d, tokens, |tokens|);
    ShadesAre(d, tokens, |tokens|);
    JoinAssoc([], ShadesTo(tokens, |tokens|), []);
    assert AllShades(d) == [] && [] + ShadesTo(tokens, |tokens|) == ShadesTo(tokens, |tokens|);
    ConditionIs(d, tokens, |tokens|);
  }

  // ----- the markup in the output -----

  datatype Piece = Text(text: string) | Begin | End

  /** Reading a line of output: whether its markup alternates so far, whether markup is
      open, and the text with what was open around it. */
  datatype Reading = Reading(ok: bool, open: bool, shades: seq<Shade>)

  function ReadPiece(r: Reading, p: Piece): Reading {
    match p
    case Text(t) => Reading(r.ok, r.open, r.shades + [Shade(t, r.open)])
    case Begin => Reading(r.ok && !r.open, true, r.shades)
    case End => Reading(r.ok && r.open, false, r.shades)
  }

  function Read(line: seq<Piece>): Reading {
    if line == [] then Reading(true, false, []) else ReadPiece(Read(line[..|line| - 1]), Last(line))
  }

  lemma ReadAppend(line: seq<Piece>, p: Piece)
    ensures Read(line + [p]) == ReadPiece(Read(line), p)
  {
    assert (line + [p])[..|line|] == line;
  }

  /** A finished line: its markup alternates and is closed. */
  predicate Balanced(line: seq<Piece>) {
    Read(line).ok && !Read(line).open
  }

  function ReadAll(lines: seq<seq<Piece>>): seq<seq<Shade>> {
    if lines == [] then [] else ReadAll(lines[..|lines| - 1]) + [Read(Last(lines)).shades]
  }

  lemma ReadAllAppend(lines: seq<seq<Piece>>, line: seq<Piece>)
    ensures ReadAll(lines + [line]) == ReadAll(lines) + [Read(line).shades]
  {
    assert (lines + [line])[..|lines|] == lines;
  }

  // ----- one frame for all the braces, and a counter -----

  /** Which start condition may be pushed on which. */
  predicate MayNest(lower: Cond, upper: Cond) {
    MayPush(lower, upper) && !(lower == BracedCode && upper == BracedCode)
  }

  /** The start condition at i may be on the one below it. */
  predicate Nests(s: seq<Cond>, i: int)
    requires 0 < i < |s|
  {
    MayNest(s[i - 1], s[i])
  }

  predicate NestOk(s: seq<Cond>) {
    s != [] && IsBase(s[0]) && forall i {:trigger Nests(s, i)} :: 0 < i < |s| ==> Nests(s, i)
  }

  predicate HasBraces(s: seq<Cond>) {
    |s| > 1 && s[1] == BracedCode
  }

  function Braces(n: nat): (f: seq<Cond>)
    ensures |f| == n && forall i :: 0 <= i < n ==> f[i] == BracedCode
  {
    if n == 0 then [] else Braces(n - 1) + [BracedCode]
  }

  /** The frames that a stack s and a brace level n stand for. */
  function Spread(s: seq<Cond>, n: nat): seq<Cond> {
    if HasBraces(s) then [s[0]] + Braces(n) + s[2..] else s
  }

  lemma SpreadLast(s: seq<Cond>, n: nat)
    requires NestOk(s) && (HasBraces(s) ==> n > 0)
    ensures Spread(s, n) != [] && Last(Spread(s, n)) == Last(s)
  {
  }

  lemma SpreadOk(s: seq<Cond>, n: nat)
    requires NestOk(s) && (HasBraces(s) ==> n > 0)
    ensures FramesOk(Spread(s, n))
  {
    var f := Spread(s, n);
    forall i | 0 < i < |f| ensures Lies(f, i) {
      if HasBraces(s) {
        assert Nests(s, 1);
        if i > n {
          assert f[i] == s[i - n + 1] && Nests(s, i - n + 1);
        }
      } else {
        assert Nests(s, i);
      }
    }
  }

  lemma NestPush(s: seq<Cond>, c: Cond)
    requires NestOk(s) && MayNest(Last(s), c)
    ensures NestOk(s + [c])
  {
    forall i | 0 < i < |s + [c]| ensures Nests(s + [c], i) {
      assert i < |s| ==> Nests(s, i);
    }
  }

  lemma NestPop(s: seq<Cond>)
    requires NestOk(s) && |s| > 1
    ensures NestOk(s[..|s| - 1])
  {
    var rest := s[..|s| - 1];
    forall i | 0 < i < |rest| ensures Nests(rest, i) {
      assert Nests(s, i);
    }
  }

  /** Only the first frame is a base frame. */
  lemma BaseIsFirst(s: seq<Cond>)
    requires NestOk(s) && IsBase(Last(s))
    ensures |s| == 1
  {
    assert |s| > 1 ==> Nests(s, |s| - 1);
  }

  /** Braces are only at the bottom. */
  lemma BracesAreSecond(s: seq<Cond>)
    requires NestOk(s) && Last(s) == BracedCode
    ensures |s| == 2
  {
    assert |s| > 1 ==> Nests(s, |s| - 1);
    assert |s| > 2 ==> Nests(s, |s| - 2);
  }

  lemma SpreadPush(s: seq<Cond>, n: nat, c: Cond)
    requires NestOk(s) && MayNest(Last(s), c)
    ensures NestOk(s + [c])
    ensures c != BracedCode ==> Spread(s + [c], n) == Spread(s, n) + [c]
    ensures c == BracedCode ==> HasBraces(s + [c]) && Spread(s + [c], 1) == Spread(s, n) + [c]
  {
    NestPush(s, c);
    assert |s| > 1 ==> Nests(s, |s| - 1);
  }

  lemma SpreadPop(s: seq<Cond>, n: nat)
    requires NestOk(s) && |s| > 1 && Last(s) != BracedCode && (HasBraces(s) ==> n > 0)
    ensures NestOk(s[..|s| - 1]) && Spread(s[..|s| - 1], n) == Pop(Spread(s, n))
    ensures HasBraces(s[..|s| - 1]) == HasBraces(s)
  {
    NestPop(s);
  }

  lemma SpreadBrace(s: seq<Cond>, n: nat)
    requires NestOk(s) && Last(s) == BracedCode && n > 0
    ensures HasBraces(s) && Spread(s, n + 1) == Spread(s, n) + [BracedCode]
    ensures n > 1 ==> Spread(s, n - 1) == Pop(Spread(s, n))
    ensures n == 1 ==> NestOk(s[..|s| - 1]) && Spread(s[..|s| - 1], 0) == Pop(Spread(s, n)) && !HasBraces(s[..|s| - 1])
  {
    BracesAreSecond(s);
    NestPop(s);
  }

  /** The scanner of one process; it is used for one file after another, and what the
      files before have left on the stack stays there. */
  class Converter {
    var start: Cond
    var stack: seq<Cond>
    /** The stack as this file found it. */
    ghost var kept: seq<Cond>
    var braceLevel: int
    var beginLine: bool
    var lineno: nat
    var outbuf: seq<Piece>
    /** The lines written for this file. */
    var lines: seq<seq<Piece>>

    constructor ()
      ensures stack == []
    {
      start, stack, kept, braceLevel := C, [], [], 0;
      beginLine, lineno, outbuf, lines := true, 1, [], [];
    }

    /** The start conditions that this file has pushed, with the current one. */
    ghost function Own(): (s: seq<Cond>)
      requires kept <= stack
      reads `start, `stack, `kept
      ensures s != [] && Last(s) == start
    {
      stack[|kept|..] + [start]
    }

    ghost predicate ControlOk()
      reads `start, `stack, `kept, `braceLevel
    {
      kept <= stack && NestOk(Own()) && (HasBraces(Own()) ==> braceLevel > 0)
    }

    ghost function Frames(): (f: seq<Cond>)
      requires ControlOk()
      reads `start, `stack, `kept, `braceLevel
      ensures FramesOk(f) && Last(f) == start
    {
      var n := if HasBraces(Own()) then braceLevel else 0;
      SpreadOk(Own(), n);
      SpreadLast(Own(), n);
      Spread(Own(), n)
    }

    ghost predicate OutputOk()
      reads `start, `beginLine, `lineno, `outbuf, `lines
    {
      && Read(outbuf).ok && Read(outbuf).open == (IsComment(start) && !beginLine)
      && (beginLine ==> outbuf == [])
      && (forall i :: 0 <= i < |lines| ==> Balanced(lines[i])) && lineno == |lines| + 1
    }

    /** The text read from the current line of the output. */
    ghost function Line(): seq<Shade>
      reads `outbuf
    {
      Read(outbuf).shades
    }

    /** The text read from the finished lines. */
    ghost function Lines(): seq<seq<Shade>>
      reads `lines
    {
      ReadAll(lines)
    }

    ghost function Document(): Doc
      requires ControlOk()
      reads `start, `stack, `kept, `braceLevel, `outbuf, `lines
    {
      Doc(Frames(), Line(), Lines())
    }

    // ----- the start-condition stack -----

    /** yy_push_state. */
    method PushState(c: Cond)
      requires kept <= stack
      modifies `start, `stack
      ensures kept <= stack && Own() == old(Own()) + [c]
    {
      stack := stack + [start];
      start := c;
    }

    /** yy_pop_state: the caller must know that this file has pushed something. */
    method PopState()
      requires kept < stack
      modifies `start, `stack
      ensures kept <= stack && Own() == old(Own())[..|old(Own())| - 1]
    {
      start := stack[|stack| - 1];
      stack := stack[..|stack| - 1];
    }

    /** The actions that push any frame but braces. */
    method Enter(c: Cond)
      requires ControlOk() && MayPush(start, c) && c != BracedCode
      modifies `start, `stack
      ensures ControlOk() && Frames() == old(Frames()) + [c]
    {
      SpreadPush(Own(), if HasBraces(Own()) then braceLevel else 0, c);
      PushState(c);
    }

    /** The actions that pop any frame but braces. */
    method Leave()
      requires ControlOk() && start != BracedCode && |Frames()| > 1
      modifies `start, `stack
      ensures ControlOk() && Frames() == Pop(old(Frames()))
    {
      SpreadPop(Own(), if HasBraces(Own()) then braceLevel else 0);
      PopState();
    }

    /** The two actions on an opening brace of yacc code. */
    method EnterBrace()
      requires ControlOk() && Enabled(OpenBrace, start)
      modifies `start, `stack, `braceLevel
      ensures ControlOk() && Frames() == old(Frames()) + [BracedCode]
    {
      if start == BracedCode {
        BracesAreSecond(Own());
        SpreadBrace(Own(), braceLevel);
        braceLevel := braceLevel + 1;
      } else {
        SpreadPush(Own(), if HasBraces(Own()) then braceLevel else 0, BracedCode);
        braceLevel := 1;
        PushState(BracedCode);
      }
    }

    /** The action on a closing brace of yacc code. */
    method LeaveBrace()
      requires ControlOk() && start == BracedCode
      modifies `start, `stack, `braceLevel
      ensures ControlOk() && Frames() == Pop(old(Frames()))
    {
      BracesAreSecond(Own());
      SpreadBrace(Own(), braceLevel);
      braceLevel := braceLevel - 1;
      if braceLevel == 0 {
        PopState();
      }
    }

    /** BEGIN, which is used only with nothing pushed by this file. */
    method NextYaccSection()
      requires ControlOk() && Enabled(NextSection, start)
      modifies `start
      ensures ControlOk() && Frames() == NextFrames(old(Frames()), NextSection)
    {
      BaseIsFirst(Own());
      start := if start == YaccDeclarations then YaccRules else C;
    }

    /** What the action of a rule within a line does to the start condition. */
    method Move(r: Rule)
      requires ControlOk() && Enabled(r, start) && r != Newline
      modifies `start, `stack, `braceLevel
      ensures ControlOk() && Frames() == NextFrames(old(Frames()), r)
    {
      NextFramesOk(Frames(), r);
      match r
      case OpenComment => Enter(CComment);
      case LineComment => Enter(CppComment);
      case OpenString => Enter(Str);
      case OpenLiteral => Enter(Literal);
      case Directive => Enter(PreprocessorLine);
      case OpenPrologue => Enter(YaccPrologue);
      case OpenBrace => EnterBrace();
      case CloseBrace => LeaveBrace();
      case NextSection => NextYaccSection();
      case CloseComment | CloseString | CloseLiteral | ClosePrologue => Leave();
      case BackslashNewline | Plain =>
    }

    // ----- the output -----

    method Echo(p: Piece)
      modifies `outbuf
      ensures outbuf == old(outbuf) + [p] && Read(outbuf) == ReadPiece(Read(old(outbuf)), p)
    {
      ReadAppend(outbuf, p);
      outbuf := outbuf + [p];
    }

    /** YY_USER_ACTION: the first token of a line reopens the markup of a comment. */
    method UserAction()
      requires OutputOk()
      modifies `beginLine, `outbuf
      ensures OutputOk() && !beginLine && Line() == old(Line())
      ensures ControlOk() ==> Document() == old(Document())
    {
      if beginLine {
        OpenMarkup();
        beginLine := false;
      }
    }

    method OpenMarkup()
      requires outbuf == []
      modifies `outbuf
      ensures Read(outbuf).ok && Read(outbuf).open == IsComment(start) && Line() == old(Line()) == []
    {
      if IsComment(start) {
        Echo(Begin);
      }
    }

    /** put_end_of_line. */
    method PutEndOfLine()
      requires Balanced(outbuf)
      modifies `outbuf, `lines
      ensures outbuf == [] && lines == old(lines) + [old(outbuf)]
      ensures Line() == [] && Lines() == old(Lines()) + [old(Line())]
    {
      ReadAllAppend(lines, outbuf);
      lines := lines + [outbuf];
      outbuf := [];
    }

    /** The switch of the end-of-line action. */
    method EndPhraseAction()
      requires ControlOk() && OutputOk() && !beginLine
      modifies `start, `stack, `outbuf
      ensures ControlOk() && Frames() == EndPhrase(old(Frames()))
      ensures Balanced(outbuf) && Line() == old(Line())
    {
      FramesAbove(Frames());
      if start == CppComment || start == ShellComment {
        Leave();
        Echo(End);
      } else if start == CComment {
        Echo(End);
      } else if start == Str || start == Literal {
        // newline_terminate_string is set for C and yacc
        Leave();
      }
    }

    /** A newline ends a directive. */
    method EndDirectiveAction()
      requires ControlOk()
      modifies `start, `stack
      ensures ControlOk() && Frames() == EndDirective(old(Frames()))
    {
      if start == PreprocessorLine {
        FramesAbove(Frames());
        Leave();
      }
    }

    /** All that ends with a line, before the line is written. */
    method EndFrames()
      requires ControlOk() && OutputOk() && !beginLine
      modifies `start, `stack, `outbuf
      ensures ControlOk() && Frames() == EndLine(old(Frames()))
      ensures Balanced(outbuf) && Line() == old(Line())
    {
      EndPhraseAction();
      EndDirectiveAction();
    }

    /** The action on a newline. */
    method EndOfLineAction(tok: Token)
      requires ControlOk() && OutputOk() && !beginLine && tok.rule == Newline
      modifies `start, `stack, `beginLine, `lineno, `outbuf, `lines
      ensures ControlOk() && OutputOk() && Document() == NextDoc(old(Document()), tok)
    {
      FinishLine();
    }

    method FinishLine()
      requires ControlOk() && OutputOk() && !beginLine
      modifies `start, `stack, `beginLine, `lineno, `outbuf, `lines
      ensures ControlOk() && OutputOk() && Frames() == EndLine(old(Frames()))
      ensures Line() == [] && Lines() == old(Lines()) + [old(Line())]
    {
      EndFrames();
      ghost var f := Frames();
      EndLineOutput();
      assert Frames() == f;
    }

    /** The rest of the end-of-line action. */
    method EndLineOutput()
      requires Balanced(outbuf) && lineno == |lines| + 1 && forall i :: 0 <= i < |lines| ==> Balanced(lines[i])
      modifies `outbuf, `lines, `lineno, `beginLine
      ensures OutputOk() && Line() == [] && Lines() == old(Lines()) + [old(Line())]
    {
      PutEndOfLine();
      lineno := lineno + 1;
      beginLine := true;
    }

    /** The action on a backslash at the end of a line: a comment goes on, its markup
        does not. */
    method BackslashNewlineAction(tok: Token)
      requires ControlOk() && OutputOk() && !beginLine && tok.rule == BackslashNewline
      modifies `outbuf, `lines, `lineno, `beginLine
      ensures OutputOk() && Document() == NextDoc(old(Document()), tok)
    {
      CutLine();
      EndLineOutput();
      assert Document() == Doc(old(Frames()), [], old(Lines()) + [old(Line()) + [Shade(BACKSLASH, IsComment(start))]]);
    }

    method CutLine()
      requires OutputOk() && !beginLine
      modifies `outbuf
      ensures Balanced(outbuf) && Line() == old(Line()) + [Shade(BACKSLASH, IsComment(start))]
    {
      Echo(Text(BACKSLASH));
      if start == CppComment || start == CComment || start == ShellComment {
        Echo(End);
      }
    }

    /** What the action of a rule within a line writes. */
    method Put(tok: Token)
      requires OutputOk() && !beginLine && Enabled(tok.rule, start)
      modifies `outbuf
      ensures Read(outbuf).ok && Read(outbuf).open == (Commenting(tok.rule) && tok.rule != CloseComment)
      ensures Line() == old(Line()) + [Shade(tok.text, Commenting(tok.rule))]
    {
      if tok.rule == OpenComment || tok.rule == LineComment {
        Echo(Begin);
      }
      Echo(Text(tok.text));
      if tok.rule == CloseComment {
        Echo(End);
      }
    }

    /** The text of a rule belongs to a comment. */
    predicate Commenting(r: Rule)
      reads `start
    {
      IsComment(start) || r == OpenComment || r == LineComment
    }

    /** A rule within a line: write, then change the start condition. */
    method TokenAction(tok: Token)
      requires ControlOk() && OutputOk() && !beginLine && Enabled(tok.rule, start)
      requires tok.rule != Newline && tok.rule != BackslashNewline
      modifies `start, `stack, `braceLevel, `outbuf
      ensures ControlOk() && OutputOk()
      ensures Document() == NextDoc(old(Document()), tok)
    {
      OpenAfter(Frames(), tok.rule);
      Put(tok);
      Move(tok.rule);
      assert Document() == Doc(NextFrames(old(Frames()), tok.rule), old(Line()) + [Shade(tok.text, old(Commenting(tok.rule)))], old(Lines()));
    }

    /** One token: the user action, then the action of its rule. */
    method Action(tok: Token)
      requires ControlOk() && OutputOk() && Enabled(tok.rule, start)
      modifies this
      ensures ControlOk() && OutputOk() && kept == old(kept)
      ensures Document() == NextDoc(old(Document()), tok)
    {
      UserAction();
      RuleAction(tok);
    }

    method RuleAction(tok: Token)
      requires ControlOk() && OutputOk() && !beginLine && Enabled(tok.rule, start)
      modifies `start, `stack, `braceLevel, `beginLine, `lineno, `outbuf, `lines
      ensures ControlOk() && OutputOk() && Document() == NextDoc(old(Document()), tok)
    {
      if tok.rule == Newline {
        EndOfLineAction(tok);
      } else if tok.rule == BackslashNewline {
        BackslashNewlineAction(tok);
      } else {
        TokenAction(tok);
      }
    }

    /** c_parser_init and yacc_parser_init, and the new output file. The stack and the
        brace level are left as the file before left them. */
    method BeginFile(yacc: bool)
      modifies this
      ensures ControlOk() && OutputOk() && kept == stack == old(stack) && lines == []
      ensures Document() == FileStart(yacc)
    {
      lineno, beginLine := 1, true;
      start := if yacc then YaccDeclarations else C;
      kept := stack;
      outbuf, lines := [], [];
    }

    /** Convert a file, whatever state the files before have left. Every line written
        has alternating, closed markup around exactly the text of comments, and nothing
        below what this file pushed is popped. */
    method Convert(yacc: bool, tokens: seq<Token>)
      requires Legal(FileStart(yacc), tokens)
      modifies this
      ensures ControlOk() && Document() == Run(FileStart(yacc), tokens, |tokens|)
      ensures forall i :: 0 <= i < |lines| ==> Balanced(lines[i])
      ensures LinesText(Lines()) == SourceTo(tokens, LineStart(tokens, |tokens|))
      ensures AllShades(Document()) == ShadesTo(tokens, |tokens|)
      ensures start == ConditionAt(if yacc then YaccDeclarations else C, tokens, |tokens|)
      ensures kept == old(stack) <= stack
    {
      FileIs(yacc, tokens);
      ConvertTokens(yacc, tokens);
    }

    method ConvertTokens(yacc: bool, tokens: seq<Token>)
      requires Legal(FileStart(yacc), tokens)
      modifies this
      ensures ControlOk() && Document() == Run(FileStart(yacc), tokens, |tokens|)
      ensures forall i :: 0 <= i < |lines| ==> Balanced(lines[i])
      ensures kept == old(stack) <= stack
    {
      BeginFile(yacc);
      var k := 0;
      while k < |tokens|
        invariant 0 <= k <= |tokens| && ControlOk() && OutputOk()
        invariant kept == old(stack)
        invariant Document() == Run(FileStart(yacc), tokens, k)
      {
        assert AllowedAt(FileStart(yacc), tokens, k);
        Action(tokens[k]);
        k := k + 1;
      }
    }
  }
}
