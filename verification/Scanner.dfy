/** The scanner driver that flex generates: a table-driven longest match over a
    buffer that is refilled, shifted and grown in the middle of a token. */
module Scanner {
  type State = nat

  const NUL := '\0'
  const END_OF_BUFFER := 31

  /** The tables: transitions, the rule a state accepts (0 for none), the start state
      of a start condition at the beginning of a line or elsewhere, the state in
      which nothing can follow, and the state entered on an end-of-buffer mark. */
  datatype Dfa<!S> = Dfa(next: (State, char) -> State, rule: State -> nat, start: (S, bool) -> State,
                         jam: State, eob: State)

  /** The default rule accepts c after the start state q. */
  ghost predicate Accepts<S>(d: Dfa<S>, q: State, c: char) {
    d.rule(d.next(q, c)) != 0
  }

  /** q is a start state: it accepts nothing itself, but any one character after it. */
  ghost predicate Starts<S>(d: Dfa<S>, q: State) {
    q != d.jam && q != d.eob && d.rule(q) == 0 && forall c :: Accepts(d, q, c)
  }

  ghost predicate StartOk<S>(d: Dfa<S>, s: S, bol: bool) {
    Starts(d, d.start(s, bol))
  }

  /** No character of the input leads to the end-of-buffer state, nor out of a jam. */
  ghost predicate NextOk<S>(d: Dfa<S>, q: State, c: char) {
    d.next(q, c) != d.eob && (q == d.jam ==> d.next(q, c) == d.jam)
  }

  /** What every generated table satisfies. */
  ghost predicate TablesOk<S(!new)>(d: Dfa<S>) {
    && d.jam != d.eob && d.rule(d.jam) == 0 && d.rule(d.eob) == END_OF_BUFFER
    && (forall q, c :: NextOk(d, q, c))
    && (forall s, bol :: StartOk(d, s, bol))
  }

  /** s is what is left of t after its first n characters. */
  ghost predicate After(s: seq<char>, t: seq<char>, n: nat) {
    n + |s| == |t| && forall j {:trigger Same(s, t, n, j)} :: n <= j < |t| ==> Same(s, t, n, j)
  }

  ghost predicate Same(s: seq<char>, t: seq<char>, n: nat, j: nat)
    requires n <= j < |t| && n + |s| == |t|
  {
    t[j] == s[j - n]
  }

  lemma AfterIsDrop(s: seq<char>, t: seq<char>, n: nat)
    ensures After(s, t, n) <==> n <= |t| && s == t[n..]
  {
    if After(s, t, n) {
      forall j | n <= j < |t| ensures t[j] == s[j - n] {
        assert Same(s, t, n, j);
      }
    }
  }

  // ----- longest match, without any buffer -----

  /** The state after the first k characters of t. */
  function RunAt<S>(d: Dfa<S>, q: State, t: seq<char>, k: nat): State
    requires k <= |t|
  {
    if k == 0 then q else d.next(RunAt(d, q, t, k - 1), t[k - 1])
  }

  /** The longest prefix of at most n characters, other than the empty one, that a
      rule accepts; 0 if there is none. */
  function Best<S>(d: Dfa<S>, q: State, t: seq<char>, n: nat): (k: nat)
    requires n <= |t|
    ensures k <= n
  {
    if n == 0 then 0 else if d.rule(RunAt(d, q, t, n)) != 0 then n else Best(d, q, t, n - 1)
  }

  lemma {:induction false} BestIs<S>(d: Dfa<S>, q: State, t: seq<char>, n: nat)
    requires n <= |t|
    ensures var k := Best(d, q, t, n);
            && k <= n && (k > 0 ==> d.rule(RunAt(d, q, t, k)) != 0)
            && forall j :: k < j <= n ==> d.rule(RunAt(d, q, t, j)) == 0
    decreases n
  {
    if n > 0 {
      BestIs(d, q, t, n - 1);
    }
  }

  lemma {:induction false} JamStays<S(!new)>(d: Dfa<S>, q: State, t: seq<char>, m: nat, n: nat)
    requires TablesOk(d) && m <= n <= |t| && RunAt(d, q, t, m) == d.jam
    ensures RunAt(d, q, t, n) == d.jam && Best(d, q, t, n) == Best(d, q, t, m)
    decreases n - m
  {
    if m < n {
      JamStays(d, q, t, m, n - 1);
      assert NextOk(d, d.jam, t[n - 1]);
    }
  }

  /** Nothing after a jam can be accepted. */
  lemma BestBeforeJam<S(!new)>(d: Dfa<S>, q: State, t: seq<char>, n: nat)
    requires TablesOk(d) && n < |t| && RunAt(d, q, t, n + 1) == d.jam
    ensures Best(d, q, t, |t|) == Best(d, q, t, n)
  {
    JamStays(d, q, t, n + 1, |t|);
  }

  lemma {:induction false} BestGrows<S>(d: Dfa<S>, q: State, t: seq<char>, m: nat, n: nat)
    requires m <= n <= |t|
    ensures Best(d, q, t, m) <= Best(d, q, t, n)
    decreases n - m
  {
    BestIs(d, q, t, m);
    if m < n {
      BestGrows(d, q, t, m, n - 1);
    }
  }

  lemma StartStarts<S(!new)>(d: Dfa<S>, s: S, b: bool)
    requires TablesOk(d)
    ensures Starts(d, d.start(s, b))
  {
    assert StartOk(d, s, b);
  }

  lemma OneIsAccepted<S>(d: Dfa<S>, q: State, t: seq<char>)
    requires Starts(d, q) && |t| > 0
    ensures d.rule(RunAt(d, q, t, 1)) != 0
  {
    assert RunAt(d, q, t, 1) == d.next(RunAt(d, q, t, 0), t[0]) == d.next(q, t[0]);
    assert Accepts(d, q, t[0]);
  }

  lemma BestIsPositive<S>(d: Dfa<S>, q: State, t: seq<char>, n: nat)
    requires Starts(d, q) && 0 < n <= |t|
    ensures 0 < Best(d, q, t, n) <= n
  {
    OneIsAccepted(d, q, t);
    assert Best(d, q, t, 1) == 1;
    BestGrows(d, q, t, 1, n);
    BestIs(d, q, t, n);
  }

  /** At a jam on the character after the first n, the best match so far is the longest. */
  lemma JamDecides<S(!new)>(d: Dfa<S>, q: State, t: seq<char>, n: nat)
    requires TablesOk(d) && Starts(d, q) && n < |t| && RunAt(d, q, t, n + 1) == d.jam
    ensures 0 < Best(d, q, t, |t|) == Best(d, q, t, n) <= n
  {
    OneIsAccepted(d, q, t);
    BestBeforeJam(d, q, t, n);
    BestIsPositive(d, q, t, n);
  }

  lemma RunIsNoMark<S(!new)>(d: Dfa<S>, q: State, t: seq<char>, k: nat)
    requires TablesOk(d) && Starts(d, q) && k <= |t|
    ensures RunAt(d, q, t, k) != d.eob
  {
    if k > 0 {
      assert NextOk(d, RunAt(d, q, t, k - 1), t[k - 1]);
    }
  }

  datatype Token = Token(rule: nat, text: seq<char>)
  datatype Option<T> = None | Some(value: T)

  /** What the scanner is to return for the input t. */
  function Expected<S>(d: Dfa<S>, q: State, t: seq<char>): Token {
    var k := Best(d, q, t, |t|);
    BestIs(d, q, t, |t|);
    Token(d.rule(RunAt(d, q, t, k)), t[..k])
  }

  /** yy_at_bol after a token. */
  predicate EndsLine(tok: Token)
    requires tok.text != []
  {
    tok.text[|tok.text| - 1] == '\n'
  }

  lemma ExpectedAdvances<S(!new)>(d: Dfa<S>, q: State, t: seq<char>)
    requires TablesOk(d) && Starts(d, q) && t != []
    ensures Expected(d, q, t).text != [] && Expected(d, q, t).text <= t
  {
    BestIsPositive(d, q, t, |t|);
  }

  /** Longest-match tokenization of the whole input t: no buffer, no reads. */
  ghost function Tokenize<S(!new)>(d: Dfa<S>, action: (S, nat, seq<char>) -> S, s: S, bol: bool, t: seq<char>)
      : seq<Token>
    requires TablesOk(d)
    decreases |t|
  {
    if t == [] then [] else
      StartStarts(d, s, bol);
      ExpectedAdvances(d, d.start(s, bol), t);
      var tok := Expected(d, d.start(s, bol), t);
      [tok] + Tokenize(d, action, action(s, tok.rule, tok.text), EndsLine(tok), t[|tok.text|..])
  }

  lemma TokenizeStep<S(!new)>(d: Dfa<S>, action: (S, nat, seq<char>) -> S, s: S, bol: bool, t: seq<char>,
                              rest: seq<char>)
    requires TablesOk(d) && t != []
    ensures var tok := Expected(d, d.start(s, bol), t);
            && tok.text != []
            && (After(rest, t, |tok.text|) ==>
                 && |rest| < |t|
                 && Tokenize(d, action, s, bol, t)
                    == [tok] + Tokenize(d, action, action(s, tok.rule, tok.text), tok.text[|tok.text| - 1] == '\n', rest))
  {
    StartStarts(d, s, bol);
    ExpectedAdvances(d, d.start(s, bol), t);
    AfterIsDrop(rest, t, |Expected(d, d.start(s, bol), t).text|);
  }

  lemma Assoc(s: seq<Token>, x: Token, t: seq<Token>)
    ensures s + ([x] + t) == (s + [x]) + t
  {
  }

  function Texts(tokens: seq<Token>): seq<char> {
    if tokens == [] then [] else tokens[0].text + Texts(tokens[1..])
  }

  lemma TextsStep(tok: Token, tail: seq<Token>)
    ensures Texts([tok] + tail) == tok.text + Texts(tail)
  {
    assert ([tok] + tail)[1..] == tail;
  }

  /** What is left of t after its first token. */
  ghost function Drop<S(!new)>(d: Dfa<S>, s: S, bol: bool, t: seq<char>): (rest: seq<char>)
    requires TablesOk(d) && t != []
    ensures var text := Expected(d, d.start(s, bol), t).text;
            text != [] && After(rest, t, |text|) && text + rest == t && |rest| < |t|
  {
    StartStarts(d, s, bol);
    ExpectedAdvances(d, d.start(s, bol), t);
    var text := Expected(d, d.start(s, bol), t).text;
    AfterIsDrop(t[|text|..], t, |text|);
    t[|text|..]
  }

  /** No character is lost, repeated or reordered by tokenization, and no token is empty. */
  lemma {:induction false} NothingIsLost<S(!new)>(d: Dfa<S>, action: (S, nat, seq<char>) -> S, s: S, bol: bool,
                                                  t: seq<char>)
    requires TablesOk(d)
    ensures Texts(Tokenize(d, action, s, bol, t)) == t
    decreases |t|
  {
    if t != [] {
      var tok := Expected(d, d.start(s, bol), t);
      var rest := Drop(d, s, bol, t);
      var bol' := tok.text[|tok.text| - 1] == '\n';
      NothingIsLost(d, action, action(s, tok.rule, tok.text), bol', rest);
      TextsStep(tok, Tokenize(d, action, action(s, tok.rule, tok.text), bol', rest));
      TokenizeStep(d, action, s, bol, t, rest);
    }
  }

  // ----- what each token is -----

  /** tok is the longest match of t from the start state q: its rule accepts its text, which
      is not empty, and no rule accepts a longer piece of t. */
  ghost predicate IsLongest<S>(d: Dfa<S>, q: State, t: seq<char>, tok: Token) {
    && 0 < |tok.text| <= |t| && tok.text == t[..|tok.text|]
    && tok.rule == d.rule(RunAt(d, q, t, |tok.text|)) && tok.rule != 0
    && forall j :: |tok.text| < j <= |t| ==> d.rule(RunAt(d, q, t, j)) == 0
  }

  /** The start condition that the actions of the first k tokens leave. */
  function CondAt<S>(action: (S, nat, seq<char>) -> S, s: S, tokens: seq<Token>, k: nat): S
    requires k <= |tokens|
  {
    if k == 0 then s else action(CondAt(action, s, tokens, k - 1), tokens[k - 1].rule, tokens[k - 1].text)
  }

  /** Where token k begins: the length of the texts before it. */
  function Offset(tokens: seq<Token>, k: nat): nat
    requires k <= |tokens|
  {
    if k == 0 then 0 else Offset(tokens, k - 1) + |tokens[k - 1].text|
  }

  /** The place o of t is at the beginning of a line, given that of its first character. */
  predicate AtLineStart(t: seq<char>, bol: bool, o: nat)
    requires o <= |t|
  {
    if o == 0 then bol else t[o - 1] == '\n'
  }

  /** Token k is the longest match of what is left of t, from the start state of the
      condition that the actions before it have left, and of its place in the line. */
  ghost predicate IsToken<S>(d: Dfa<S>, action: (S, nat, seq<char>) -> S, s: S, bol: bool, t: seq<char>,
                             tokens: seq<Token>, k: nat)
    requires k < |tokens|
  {
    var o := Offset(tokens, k);
    o < |t| && IsLongest(d, d.start(CondAt(action, s, tokens, k), AtLineStart(t, bol, o)), t[o..], tokens[k])
  }

  lemma ExpectedIsLongest<S(!new)>(d: Dfa<S>, q: State, t: seq<char>)
    requires TablesOk(d) && Starts(d, q) && t != []
    ensures IsLongest(d, q, t, Expected(d, q, t))
  {
    BestIs(d, q, t, |t|);
    BestIsPositive(d, q, t, |t|);
  }

  lemma {:induction false} CondLater<S>(action: (S, nat, seq<char>) -> S, s: S, tok: Token, tail: seq<Token>, k: nat)
    requires k <= |tail|
    ensures CondAt(action, s, [tok] + tail, k + 1) == CondAt(action, action(s, tok.rule, tok.text), tail, k)
    decreases k
  {
    if k == 0 {
      assert CondAt(action, s, [tok] + tail, 0) == s;
    } else {
      CondLater(action, s, tok, tail, k - 1);
    }
  }

  lemma {:induction false} OffsetLater(tok: Token, tail: seq<Token>, k: nat)
    requires k <= |tail|
    ensures Offset([tok] + tail, k + 1) == |tok.text| + Offset(tail, k)
    decreases k
  {
    if k == 0 {
      assert Offset([tok] + tail, 0) == 0;
    } else {
      OffsetLater(tok, tail, k - 1);
    }
  }

  /** A later token is one of the rest of the input. */
  lemma TokenLater<S(!new)>(d: Dfa<S>, action: (S, nat, seq<char>) -> S, s: S, bol: bool, t: seq<char>,
                            tok: Token, rest: seq<char>, tail: seq<Token>, k: nat)
    requires tok.text != [] && After(rest, t, |tok.text|) && tok.text <= t && k < |tail|
    requires IsToken(d, action, action(s, tok.rule, tok.text), tok.text[|tok.text| - 1] == '\n', rest, tail, k)
    ensures IsToken(d, action, s, bol, t, [tok] + tail, k + 1)
  {
    var n, o := |tok.text|, Offset(tail, k);
    CondLater(action, s, tok, tail, k);
    OffsetLater(tok, tail, k);
    AfterIsDrop(rest, t, n);
    assert t[n + o..] == rest[o..];
    assert AtLineStart(t, bol, n + o) == AtLineStart(rest, tok.text[n - 1] == '\n', o);
  }

  lemma FirstToken<S(!new)>(d: Dfa<S>, action: (S, nat, seq<char>) -> S, s: S, bol: bool, t: seq<char>,
                            tail: seq<Token>)
    requires TablesOk(d) && t != []
    ensures IsToken(d, action, s, bol, t, [Expected(d, d.start(s, bol), t)] + tail, 0)
  {
    StartStarts(d, s, bol);
    ExpectedIsLongest(d, d.start(s, bol), t);
    assert t[0..] == t;
  }

  /** The first token, what is left and the tokens of that. */
  lemma Parts<S(!new)>(d: Dfa<S>, action: (S, nat, seq<char>) -> S, s: S, bol: bool, t: seq<char>)
      returns (tok: Token, rest: seq<char>, tail: seq<Token>)
    requires TablesOk(d) && t != []
    ensures tok == Expected(d, d.start(s, bol), t) && tok.text != [] && tok.text <= t && After(rest, t, |tok.text|)
    ensures tail == Tokenize(d, action, action(s, tok.rule, tok.text), tok.text[|tok.text| - 1] == '\n', rest)
    ensures Tokenize(d, action, s, bol, t) == [tok] + tail
  {
    tok, rest := Expected(d, d.start(s, bol), t), Drop(d, s, bol, t);
    TokenizeStep(d, action, s, bol, t, rest);
    tail := Tokenize(d, action, action(s, tok.rule, tok.text), tok.text[|tok.text| - 1] == '\n', rest);
  }

  /** Every token of the whole input is the longest match of the rest of it, from the start
      state that its place and the tokens before it call for: at the beginning of a line
      exactly if the character before it is a newline. */
  lemma {:induction false} EveryToken<S(!new)>(d: Dfa<S>, action: (S, nat, seq<char>) -> S, s: S, bol: bool,
                                               t: seq<char>, tokens: seq<Token>, k: nat)
    requires TablesOk(d) && tokens == Tokenize(d, action, s, bol, t) && k < |tokens|
    ensures IsToken(d, action, s, bol, t, tokens, k)
    decreases k
  {
    var tok, rest, tail := Parts(d, action, s, bol, t);
    if k == 0 {
      FirstToken(d, action, s, bol, t, tail);
    } else {
      EveryToken(d, action, action(s, tok.rule, tok.text), tok.text[|tok.text| - 1] == '\n', rest, tail, k - 1);
      TokenLater(d, action, s, bol, t, tok, rest, tail, k - 1);
    }
  }

  ghost predicate AreTokens<S>(d: Dfa<S>, action: (S, nat, seq<char>) -> S, s: S, bol: bool, t: seq<char>,
                               tokens: seq<Token>) {
    forall k {:trigger IsToken(d, action, s, bol, t, tokens, k)} :: 0 <= k < |tokens| ==>
      IsToken(d, action, s, bol, t, tokens, k)
  }

  lemma EveryTokenIs<S(!new)>(d: Dfa<S>, action: (S, nat, seq<char>) -> S, s: S, bol: bool, t: seq<char>)
    requires TablesOk(d)
    ensures AreTokens(d, action, s, bol, t, Tokenize(d, action, s, bol, t))
    ensures Texts(Tokenize(d, action, s, bol, t)) == t
  {
    var tokens := Tokenize(d, action, s, bol, t);
    forall k | 0 <= k < |tokens| ensures IsToken(d, action, s, bol, t, tokens, k) {
      EveryToken(d, action, s, bol, t, tokens, k);
    }
    NothingIsLost(d, action, s, bol, t);
  }

  // ----- the driver -----

  datatype Status = New | Normal | EofPending
  datatype Refill = EndOfFile | ContinueScan | LastMatch

  datatype Verdict = GoOn | Done | AtEof

  const READ_SIZE := 8192

  class Scanner<S(!new)> {
    const dfa: Dfa<S>
    /** What the action of a rule leaves as the start condition. */
    const action: (S, nat, seq<char>) -> S

    var chBuf: array<char>
    var bufSize: nat
    var nChars: nat
    var cBufP: nat
    var text: nat
    var holdChar: char
    var lastState: State
    var lastPos: nat
    var status: Status
    var atBol: bool
    var cond: S
    /** The characters of the input file that have not been read. */
    var unread: seq<char>

    /** The buffer from bp on, and then the file, hold t. */
    ghost predicate Holds(bp: nat, t: seq<char>)
      reads `chBuf, `bufSize, `nChars, `status, `unread, chBuf
    {
      && 0 < bufSize && chBuf.Length == bufSize + 2
      && bp <= nChars <= bufSize && nChars - bp <= |t|
      && chBuf[nChars] == NUL && chBuf[nChars + 1] == NUL
      && (forall j :: bp <= j < nChars ==> chBuf[j] == t[j - bp])
      && After(unread, t, nChars - bp)
      && (status == EofPending ==> unread == [])
    }

    /** The last accepting state and position are those of the best match among the
        prefixes shorter than n. */
    ghost predicate Recorded(bp: nat, q0: State, t: seq<char>, n: nat)
      requires n <= |t|
      reads `lastState, `lastPos
    {
      var k := Best(dfa, q0, t, if n == 0 then 0 else n - 1);
      k > 0 ==> lastPos == bp + k && lastState == RunAt(dfa, q0, t, k)
    }

    /** c__create_buffer and the first call: an empty buffer, nothing read yet. */
    constructor (dfa: Dfa<S>, action: (S, nat, seq<char>) -> S, cond: S, file: seq<char>)
      ensures this.dfa == dfa && this.action == action && this.cond == cond && atBol
      ensures Valid() && Rest() == file && fresh(chBuf)
    {
      this.dfa, this.action, this.cond := dfa, action, cond;
      bufSize, nChars, cBufP, text, holdChar := 2 * READ_SIZE, 0, 0, 0, NUL;
      chBuf := new char[2 * READ_SIZE + 2](_ => NUL);
      lastState, lastPos, status, atBol, unread := 0, 0, New, true, file;
    }

    /** Between two tokens, one character of the buffer is kept in holdChar. */
    ghost predicate Valid()
      reads this, chBuf
    {
      && 0 < bufSize && chBuf.Length == bufSize + 2
      && cBufP <= nChars <= bufSize
      && chBuf[..][cBufP := holdChar][nChars] == NUL && chBuf[..][cBufP := holdChar][nChars + 1] == NUL
      && (status == EofPending ==> unread == [])
    }

    /** The input that has not been made into tokens. */
    ghost function Rest(): seq<char>
      requires Valid()
      reads this, chBuf
    {
      chBuf[..][cBufP := holdChar][cBufP..nChars] + unread
    }

    /** yy_get_previous_state: run over what has been scanned, a NUL counting as a
        character. */
    method GetPreviousState(q0: State, ghost t: seq<char>) returns (q: State)
      requires text <= cBufP <= nChars && Holds(text, t) && dfa.rule(q0) == 0
      modifies this`lastState, this`lastPos
      ensures q == RunAt(dfa, q0, t, cBufP - text) && Recorded(text, q0, t, cBufP - text)
    {
      q := q0;
      var cp := text;
      while cp < cBufP
        invariant text <= cp <= cBufP && Holds(text, t)
        invariant q == RunAt(dfa, q0, t, cp - text) && Recorded(text, q0, t, cp - text)
      {
        q := RunOn(cp, q, q0, t);
        cp := cp + 1;
      }
    }

    /** One turn of yy_get_previous_state. */
    method RunOn(cp: nat, q: State, q0: State, ghost t: seq<char>) returns (r: State)
      requires text <= cp < nChars && Holds(text, t) && dfa.rule(q0) == 0
      requires q == RunAt(dfa, q0, t, cp - text) && Recorded(text, q0, t, cp - text)
      modifies this`lastState, this`lastPos
      ensures r == RunAt(dfa, q0, t, cp + 1 - text) && Recorded(text, q0, t, cp + 1 - text)
    {
      if dfa.rule(q) != 0 {
        lastState, lastPos := q, cp;
      }
      r := dfa.next(q, chBuf[cp]);
    }

    /** yy_try_NUL_trans, after k characters; the jam state stands for its result 0. */
    method TryNulTrans(q: State, q0: State, ghost t: seq<char>, ghost k: nat) returns (r: State)
      requires k < |t| && t[k] == NUL && cBufP == text + k && dfa.rule(q0) == 0
      requires q == RunAt(dfa, q0, t, k) && Recorded(text, q0, t, k)
      modifies this`lastState, this`lastPos
      ensures r == RunAt(dfa, q0, t, k + 1) && Recorded(text, q0, t, k + 1)
    {
      if dfa.rule(q) != 0 {
        lastState, lastPos := q, cBufP;
      }
      r := dfa.next(q, NUL);
    }

    /** The tables as they see the raw buffer: on the character 0 every state goes to
        the end-of-buffer state, and from there nowhere. */
    function Transition(q: State, c: char): State {
      if q == dfa.eob then dfa.jam else if c == NUL then dfa.eob else dfa.next(q, c)
    }

    /** Where the matching loop stands before it looks at position cp: inside the
        input, or just past an end-of-buffer character. */
    ghost predicate Matching(cp: nat, r: State, q0: State, t: seq<char>)
      requires text <= nChars < chBuf.Length
      reads `text, `nChars, `chBuf, `lastState, `lastPos, chBuf
    {
      && nChars - text <= |t| && text <= cp <= nChars + 1 && r != dfa.jam
      && (r != dfa.eob ==>
            cp <= nChars && r == RunAt(dfa, q0, t, cp - text) && Recorded(text, q0, t, cp - text))
      && (r == dfa.eob ==> AtMark(cp, q0, t))
    }

    /** The character before cp is a 0 and all before it can be matched. */
    ghost predicate AtMark(cp: nat, q0: State, t: seq<char>)
      requires text <= nChars < chBuf.Length && nChars - text <= |t|
      reads `text, `nChars, `chBuf, chBuf
    {
      && text < cp <= nChars + 1
      && chBuf[cp - 1] == NUL && RunAt(dfa, q0, t, cp - 1 - text) != dfa.jam
    }

    /** cp and r are the end and the state of the longest match. */
    ghost predicate Decided(cp: nat, r: State, q0: State, t: seq<char>)
      reads `text, `nChars
    {
      && text < cp <= nChars && nChars - text <= |t|
      && cp - text == Best(dfa, q0, t, |t|) && r == RunAt(dfa, q0, t, cp - text)
    }

    /** The record is that of the best match up to cp. */
    ghost predicate Noted(cp: nat, q0: State, t: seq<char>)
      requires 0 <= cp - text <= |t|
      reads `text, `lastState, `lastPos
    {
      var b := Best(dfa, q0, t, cp - text);
      b > 0 ==> lastPos == text + b && lastState == RunAt(dfa, q0, t, b) && lastState != dfa.eob
    }

    /** What noting an accepting state before a step does to the record. */
    lemma NotedIsBest(cp: nat, r: State, q0: State, t: seq<char>)
      requires Holds(text, t) && Matching(cp, r, q0, t) && r != dfa.eob && Starts(dfa, q0) && TablesOk(dfa)
      ensures dfa.rule(r) != 0 ==> Best(dfa, q0, t, cp - text) == cp - text
      ensures dfa.rule(r) == 0 ==> Noted(cp, q0, t)
    {
      BestIs(dfa, q0, t, cp - text);
      RunIsNoMark(dfa, q0, t, Best(dfa, q0, t, cp - text));
    }

    /** Note an accepting state and its position. */
    method Note(cp: nat, r: State, q0: State, ghost t: seq<char>)
      requires TablesOk(dfa) && Starts(dfa, q0) && Holds(text, t) && Matching(cp, r, q0, t)
      modifies this`lastState, this`lastPos
      ensures Holds(text, t)
      ensures r == dfa.eob ==> lastState == dfa.eob && lastPos == cp
      ensures r != dfa.eob ==> r == RunAt(dfa, q0, t, cp - text) && Noted(cp, q0, t)
    {
      if r != dfa.eob {
        NotedIsBest(cp, r, q0, t);
      }
      if dfa.rule(r) != 0 {
        SetLast(cp, r, q0, t);
      }
    }

    method SetLast(cp: nat, r: State, q0: State, ghost t: seq<char>)
      requires text <= cp && Holds(text, t)
      requires r != dfa.eob ==>
                 && cp - text <= |t| && r == RunAt(dfa, q0, t, cp - text)
                 && Best(dfa, q0, t, cp - text) == cp - text
      modifies this`lastState, this`lastPos
      ensures Holds(text, t) && lastState == r && lastPos == cp
      ensures r != dfa.eob ==> Noted(cp, q0, t)
    {
      lastState, lastPos := r, cp;
    }

    /** A character of the input leads on, or decides the match. */
    lemma StepOn(cp: nat, r: State, q0: State, t: seq<char>)
      requires TablesOk(dfa) && Starts(dfa, q0) && Holds(text, t) && text <= cp < nChars && r != dfa.eob
      requires r == RunAt(dfa, q0, t, cp - text) && Noted(cp, q0, t)
      ensures var r' := dfa.next(r, chBuf[cp]);
              if r' != dfa.jam then Matching(cp + 1, r', q0, t)
              else lastState != dfa.eob && Decided(lastPos, lastState, q0, t)
    {
      var k := cp - text;
      assert NextOk(dfa, r, t[k]);
      if dfa.next(r, t[k]) == dfa.jam {
        JamDecides(dfa, q0, t, k);
      }
    }

    /** One turn of the matching loop. */
    method MatchStep(cp: nat, r: State, q0: State, ghost t: seq<char>) returns (cp': nat, r': State)
      requires TablesOk(dfa) && Starts(dfa, q0) && Holds(text, t) && Matching(cp, r, q0, t)
      modifies this`lastState, this`lastPos
      ensures Holds(text, t) && cp' == cp + 1
      ensures r' != dfa.jam ==> Matching(cp', r', q0, t) && cp <= nChars
      ensures r' == dfa.jam ==>
                if r == dfa.eob then lastState == dfa.eob && lastPos == cp
                else lastState != dfa.eob && Decided(lastPos, lastState, q0, t)
    {
      Note(cp, r, q0, t);
      var c := chBuf[cp];
      r' := Transition(r, c);
      cp' := cp + 1;
      if r == dfa.eob {
      } else if c == NUL {
        assert AtMark(cp', q0, t);
      } else {
        StepOn(cp, r, q0, t);
      }
    }

    /** The loop at yy_match, from position p with q the state so far: either the token
        is decided, or a 0 was met, the end of the buffer or a character of the input. */
    method Match(p: nat, q: State, q0: State, ghost t: seq<char>) returns (cp: nat, r: State)
      requires TablesOk(dfa) && Starts(dfa, q0) && Holds(text, t) && Matching(p, q, q0, t) && q != dfa.eob
      modifies this`lastState, this`lastPos
      ensures Holds(text, t)
      ensures r == dfa.eob ==> p < cp && AtMark(cp, q0, t)
      ensures r != dfa.eob ==> Decided(cp, r, q0, t)
    {
      cp, r := p, q;
      while r != dfa.jam
        invariant p <= cp && Holds(text, t)
        invariant r != dfa.jam ==> Matching(cp, r, q0, t) && (r == dfa.eob ==> p < cp)
        invariant r == dfa.jam ==>
                    if lastState == dfa.eob then p < lastPos && AtMark(lastPos, q0, t) else Decided(lastPos, lastState, q0, t)
        decreases nChars + 2 - cp
      {
        cp, r := MatchStep(cp, r, q0, t);
      }
      cp, r := lastPos, lastState;
    }

    // ----- refilling the buffer -----

    /** The first n characters of the buffer are those of t. */
    ghost predicate Loaded(n: nat, t: seq<char>)
      reads `chBuf, chBuf
    {
      n <= chBuf.Length && n <= |t| && forall j :: 0 <= j < n ==> chBuf[j] == t[j]
    }

    /** The characters of t from the i-th on are still where the token was. */
    ghost predicate Waiting(i: nat, t: seq<char>)
      requires nChars <= chBuf.Length && text <= nChars && nChars - text <= |t|
      reads `chBuf, `text, `nChars, chBuf
    {
      forall j :: text + i <= j < nChars ==> chBuf[j] == t[j - text]
    }

    /** Move the characters of the unfinished token to the start of the buffer. */
    method Shift(count: nat, ghost t: seq<char>)
      requires Holds(text, t) && count == nChars - text
      modifies chBuf
      ensures Loaded(count, t)
    {
      var i := 0;
      while i < count
        invariant 0 <= i <= count && Loaded(i, t) && Waiting(i, t)
      {
        ShiftOne(i, t);
        i := i + 1;
      }
    }

    method ShiftOne(i: nat, ghost t: seq<char>)
      requires text <= nChars <= chBuf.Length && i < nChars - text <= |t| && Loaded(i, t) && Waiting(i, t)
      modifies chBuf
      ensures Loaded(i + 1, t) && Waiting(i + 1, t)
    {
      chBuf[i] := chBuf[text + i];
    }

    /** Twice the room, with the first n characters kept. */
    method Double(n: nat, ghost t: seq<char>)
      requires 0 < bufSize && chBuf.Length == bufSize + 2 && n <= bufSize && Loaded(n, t)
      modifies this`chBuf, this`bufSize
      ensures fresh(chBuf) && bufSize == 2 * old(bufSize) && chBuf.Length == bufSize + 2 && Loaded(n, t)
    {
      bufSize := 2 * bufSize;
      var bigger := new char[bufSize + 2](_ => NUL);
      forall j | 0 <= j < chBuf.Length {
        bigger[j] := chBuf[j];
      }
      chBuf := bigger;
    }

    /** Grow the buffer until there is room after the moved characters. */
    method MakeRoom(moved: nat, ghost t: seq<char>) returns (room: nat)
      requires 0 < bufSize && chBuf.Length == bufSize + 2 && moved <= bufSize && Loaded(moved, t)
      modifies this`chBuf, this`bufSize
      ensures chBuf == old(chBuf) || fresh(chBuf)
      ensures chBuf.Length == bufSize + 2 && 0 < room && moved + room < bufSize && room <= READ_SIZE
      ensures Loaded(moved, t)
    {
      while bufSize - moved - 1 <= 0
        invariant 0 < bufSize && chBuf.Length == bufSize + 2 && moved <= bufSize
        invariant chBuf == old(chBuf) || fresh(chBuf)
        invariant Loaded(moved, t)
        decreases 2 * moved + 2 - bufSize
      {
        Double(moved, t);
      }
      room := bufSize - moved - 1;
      if room > READ_SIZE {
        room := READ_SIZE;
      }
    }

    /** YY_INPUT: some of the unread characters, at least one unless none is left. */
    method ReadInput(at: nat, max: nat, ghost t: seq<char>) returns (k: nat)
      requires 0 < max && at + max <= chBuf.Length && Loaded(at, t) && After(unread, t, at)
      modifies this`unread, chBuf
      ensures k <= max && (k == 0 <==> at == |t|)
      ensures Loaded(at + k, t) && After(unread, t, at + k)
    {
      if |unread| == 0 {
        return 0;
      }
      k :| 1 <= k <= max && k <= |unread|;
      AfterIsDrop(unread, t, at);
      forall j | 0 <= j < k {
        chBuf[at + j] := unread[j];
      }
      assert forall j :: at <= j < at + k ==> chBuf[j] == unread[j - at] == t[j];
      AfterIsDrop(unread[k..], t, at + k);
      unread := unread[k..];
    }

    /** Move the unfinished token to the front and read after it, unless the end of
        the file has been seen. */
    method Fill(moved: nat, ghost t: seq<char>) returns (k: nat)
      requires Holds(text, t) && moved == nChars - text
      modifies this`chBuf, this`bufSize, this`unread, chBuf
      ensures chBuf == old(chBuf) || fresh(chBuf)
      ensures 0 < bufSize && chBuf.Length == bufSize + 2 && moved + k <= bufSize
      ensures Loaded(moved + k, t) && After(unread, t, moved + k) && (k == 0 <==> moved == |t|)
    {
      Shift(moved, t);
      k := 0;
      if status != EofPending {
        var room := MakeRoom(moved, t);
        k := ReadInput(moved, room, t);
      }
    }

    /** yy_get_next_buffer, called with cBufP just past the mark at the end of the buffer. */
    method GetNextBuffer(ghost t: seq<char>) returns (r: Refill)
      requires Holds(text, t) && cBufP == nChars + 1
      modifies this, chBuf
      ensures cond == old(cond) && (chBuf == old(chBuf) || fresh(chBuf))
      ensures text == 0 && Holds(0, t)
      ensures r == EndOfFile ==> t == [] && nChars == cBufP == 0 && holdChar == NUL && atBol
      ensures r != EndOfFile ==> atBol == old(atBol)
      ensures r == LastMatch ==> 0 < nChars == old(nChars - text) && nChars == |t|
      ensures r == ContinueScan ==> nChars > old(nChars - text) && |unread| < |old(unread)|
    {
      var moved := cBufP - text - 1;
      var k := Fill(moved, t);
      if k == 0 {
        if moved == 0 {
          r := EndOfFile;
          // c_restart flushes the buffer
          cBufP, holdChar, atBol, status := 0, NUL, true, New;
        } else {
          r := LastMatch;
          status := EofPending;
        }
      } else {
        r := ContinueScan;
      }
      SetMarks(k + moved, t);
    }

    /** The two end-of-buffer marks, and the token at the start of the buffer. */
    method SetMarks(n: nat, ghost t: seq<char>)
      requires 0 < bufSize && chBuf.Length == bufSize + 2 && n <= bufSize
      requires Loaded(n, t) && After(unread, t, n)
      requires status == EofPending ==> unread == []
      modifies this`nChars, this`text, chBuf
      ensures nChars == n && text == 0 && Holds(0, t)
    {
      nChars, text := n, 0;
      chBuf[n] := NUL;
      chBuf[n + 1] := NUL;
    }

    // ----- one token -----

    /** Run again over the first k characters and stand after them. */
    method Rescan(k: nat, q0: State, ghost t: seq<char>) returns (q: State)
      requires TablesOk(dfa) && Starts(dfa, q0) && Holds(text, t) && text + k <= nChars
      modifies this`cBufP, this`lastState, this`lastPos
      ensures q == RunAt(dfa, q0, t, k) && q != dfa.eob && Recorded(text, q0, t, k) && cBufP == text + k
    {
      cBufP := text + k;
      q := GetPreviousState(q0, t);
      RunIsNoMark(dfa, q0, t, k);
    }

    /** The best match that has been recorded is the longest of all. */
    lemma RecordedIsDecided(q0: State, t: seq<char>, k: nat)
      requires TablesOk(dfa) && Starts(dfa, q0) && k < |t| && k <= nChars - text <= |t|
      requires Recorded(text, q0, t, k + 1)
      requires RunAt(dfa, q0, t, k + 1) == dfa.jam
      ensures Decided(lastPos, lastState, q0, t)
    {
      JamDecides(dfa, q0, t, k);
    }

    /** The 0 before cp is a character of the input: make the transition on it. */
    method RealNul(cp: nat, q0: State, ghost t: seq<char>) returns (go: bool, cp': nat, r: State)
      requires TablesOk(dfa) && Starts(dfa, q0) && Holds(text, t) && AtMark(cp, q0, t) && cp <= nChars
      modifies this`cBufP, this`lastState, this`lastPos
      ensures go ==> cp' == cp && r != dfa.eob && Matching(cp', r, q0, t)
      ensures !go ==> Decided(cp', r, q0, t)
    {
      r := PassNul(cp, q0, t);
      go, cp' := r != dfa.jam, cp;
      if go {
        RunIsNoMark(dfa, q0, t, cp - text);
        GoPast(cp, r, q0, t);
      } else {
        RecordedIsDecided(q0, t, cp - 1 - text);
        cp', r := lastPos, lastState;
      }
    }

    /** Run again up to the 0 before cp, and over it. */
    method PassNul(cp: nat, q0: State, ghost t: seq<char>) returns (r: State)
      requires TablesOk(dfa) && Starts(dfa, q0) && Holds(text, t) && AtMark(cp, q0, t) && cp <= nChars
      modifies this`cBufP, this`lastState, this`lastPos
      ensures r == RunAt(dfa, q0, t, cp - text) && Recorded(text, q0, t, cp - text) && cBufP == cp - 1
    {
      var k := cp - 1 - text;
      var q := Rescan(k, q0, t);
      r := TryNulTrans(q, q0, t, k);
    }

    method GoPast(cp: nat, r: State, q0: State, ghost t: seq<char>)
      requires Holds(text, t) && Matching(cp, r, q0, t)
      modifies this`cBufP
      ensures cBufP == old(cBufP) + 1 && Matching(cp, r, q0, t)
    {
      cBufP := cBufP + 1;
    }

    /** The file has ended within the token: take what was matched, backing up if the
        last state accepts nothing. */
    method MatchLast(q0: State, ghost t: seq<char>) returns (cp: nat, r: State)
      requires TablesOk(dfa) && Starts(dfa, q0) && Holds(text, t) && text < nChars && nChars - text == |t|
      modifies this`cBufP, this`lastState, this`lastPos
      ensures Decided(cp, r, q0, t)
    {
      cp := nChars;
      r := Rescan(nChars - text, q0, t);
      BestIsPositive(dfa, q0, t, |t|);
      if dfa.rule(r) == 0 {
        cp, r := lastPos, lastState;
      }
    }

    /** Go on matching after the first k characters, now at the start of the buffer. */
    method Resume(k: nat, q0: State, ghost t: seq<char>) returns (r: State)
      requires TablesOk(dfa) && Starts(dfa, q0) && text == 0 && Holds(0, t) && k <= nChars
      requires RunAt(dfa, q0, t, k) != dfa.jam
      modifies this`cBufP, this`lastState, this`lastPos
      ensures r != dfa.eob && Matching(k, r, q0, t)
    {
      r := Rescan(k, q0, t);
    }

    /** The action END_OF_BUFFER when the buffer is used up. */
    method UsedUp(cp: nat, q0: State, ghost t: seq<char>) returns (v: Verdict, cp': nat, r: State)
      requires TablesOk(dfa) && Starts(dfa, q0) && Holds(text, t) && AtMark(cp, q0, t) && cp == nChars + 1
      modifies this, chBuf
      ensures cond == old(cond) && (chBuf == old(chBuf) || fresh(chBuf))
      ensures Holds(text, t)
      ensures v == AtEof ==> t == [] && nChars == cBufP == 0 && holdChar == NUL && atBol
      ensures v == GoOn ==>
                && r != dfa.eob && Matching(cp', r, q0, t)
                && |unread| < |old(unread)| && cp' - text == cp - 1 - old(text)
      ensures v == Done ==> Decided(cp', r, q0, t)
    {
      var amount := cp - text - 1;
      cBufP := cp;
      var refill := GetNextBuffer(t);
      match refill {
        case EndOfFile =>
          v, cp', r := AtEof, 0, q0;
        case ContinueScan =>
          v, cp' := GoOn, amount;
          r := Resume(amount, q0, t);
        case LastMatch =>
          v := Done;
          cp', r := MatchLast(q0, t);
      }
    }

    method LeaveNew(cp: nat, q0: State, ghost t: seq<char>)
      requires Holds(text, t) && AtMark(cp, q0, t)
      modifies this`status
      ensures Holds(text, t) && AtMark(cp, q0, t)
    {
      if status == New {
        status := Normal;
      }
    }

    /** The 0 before cp is the mark at the end of the buffer, or a character of the input. */
    method AtNul(cp: nat, q0: State, ghost t: seq<char>) returns (v: Verdict, cp': nat, r: State)
      requires TablesOk(dfa) && Starts(dfa, q0) && Holds(text, t) && AtMark(cp, q0, t)
      modifies this, chBuf
      ensures cond == old(cond) && (chBuf == old(chBuf) || fresh(chBuf))
      ensures Holds(text, t)
      ensures v == AtEof ==> t == [] && nChars == cBufP == 0 && holdChar == NUL && atBol
      ensures v == GoOn ==> r != dfa.eob && Matching(cp', r, q0, t)
      ensures v == GoOn ==> |unread| < |old(unread)| || (|unread| == |old(unread)| && cp' == cp && text == old(text))
      ensures v == Done ==> Decided(cp', r, q0, t)
    {
      LeaveNew(cp, q0, t);
      if cp <= nChars {
        var go: bool;
        go, cp', r := RealNul(cp, q0, t);
        v := if go then GoOn else Done;
      } else {
        v, cp', r := UsedUp(cp, q0, t);
      }
    }

    /** With the kept character in its place, the buffer and the file hold the rest. */
    lemma RestIsAfter(t: seq<char>, bp: nat)
      requires Valid() && bp <= cBufP && nChars - bp <= |t| && After(unread, t, nChars - bp)
      requires cBufP < nChars ==> holdChar == t[cBufP - bp]
      requires forall j :: cBufP < j < nChars ==> chBuf[j] == t[j - bp]
      ensures After(Rest(), t, cBufP - bp)
    {
      var b := chBuf[..][cBufP := holdChar];
      assert forall j :: cBufP <= j < nChars ==> b[j] == t[j - bp];
      TwoParts(b, cBufP, nChars, unread, t, bp);
    }

    static lemma TwoParts(b: seq<char>, p: nat, n: nat, rest: seq<char>, t: seq<char>, bp: nat)
      requires bp <= p <= n <= |b| && n - bp <= |t| && After(rest, t, n - bp)
      requires forall j :: p <= j < n ==> b[j] == t[j - bp]
      ensures After(b[p..n] + rest, t, p - bp)
    {
      AfterIsDrop(rest, t, n - bp);
      assert b[p..n] == t[p - bp..n - bp];
      assert t[p - bp..] == t[p - bp..n - bp] + t[n - bp..];
      AfterIsDrop(t[p - bp..], t, p - bp);
    }

    /** YY_DO_BEFORE_ACTION: cut the token off, keeping the character after it. */
    method CutOff(cp: nat, ghost t: seq<char>) returns (yytext: seq<char>)
      requires Holds(text, t) && text < cp <= nChars
      modifies this`holdChar, this`cBufP, chBuf
      ensures Valid() && yytext == t[..cp - text] && After(Rest(), t, cp - text)
    {
      yytext := chBuf[text..cp];
      assert yytext == t[..cp - text];
      holdChar := chBuf[cp];
      chBuf[cp] := NUL;
      cBufP := cp;
      assert chBuf[..][cp := holdChar] == old(chBuf[..]);
      RestIsAfter(t, text);
    }

    lemma DecidedIsExpected(cp: nat, r: State, q0: State, t: seq<char>)
      requires Decided(cp, r, q0, t)
      ensures Token(dfa.rule(r), t[..cp - text]) == Expected(dfa, q0, t) && t[..cp - text] != []
    {
    }

    /** Cut the token off and do the action of its rule. */
    method Finish(cp: nat, r: State, q0: State, ghost t: seq<char>) returns (tok: Token)
      requires Holds(text, t) && Decided(cp, r, q0, t)
      modifies this, chBuf
      ensures chBuf == old(chBuf)
      ensures Valid() && tok == Expected(dfa, q0, t) && tok.text != [] && After(Rest(), t, |tok.text|)
      ensures cond == action(old(cond), tok.rule, tok.text) && atBol == (tok.text[|tok.text| - 1] == '\n')
    {
      DecidedIsExpected(cp, r, q0, t);
      var yytext := CutOff(cp, t);
      tok := Token(dfa.rule(r), yytext);
      atBol := EndsLine(tok);
      cond := action(cond, tok.rule, tok.text);
    }

    /** The start of a scan: put the kept character back. */
    method Begin(ghost t: seq<char>) returns (q0: State)
      requires TablesOk(dfa) && Valid() && t == Rest()
      modifies this`text, chBuf
      ensures q0 == dfa.start(cond, atBol) && Starts(dfa, q0)
      ensures text == cBufP && Holds(text, t)
    {
      chBuf[cBufP] := holdChar;
      text := cBufP;
      q0 := dfa.start(cond, atBol);
      StartStarts(dfa, cond, atBol);
      AfterIsDrop(unread, t, nChars - text);
    }

    /** Match, and on a 0 do the end-of-buffer action. */
    method Turn(p: nat, q: State, q0: State, ghost t: seq<char>) returns (v: Verdict, cp: nat, r: State)
      requires TablesOk(dfa) && Starts(dfa, q0) && Holds(text, t) && Matching(p, q, q0, t) && q != dfa.eob
      modifies this, chBuf
      ensures cond == old(cond) && (chBuf == old(chBuf) || fresh(chBuf))
      ensures Holds(text, t)
      ensures v == AtEof ==> t == [] && nChars == cBufP == 0 && holdChar == NUL && atBol
      ensures v == GoOn ==> r != dfa.eob && Matching(cp, r, q0, t)
      ensures v == GoOn ==> |unread| < |old(unread)| || (|unread| == |old(unread)| && p < cp && text == old(text))
      ensures v == Done ==> Decided(cp, r, q0, t)
    {
      cp, r := Match(p, q, q0, t);
      if r == dfa.eob {
        v, cp, r := AtNul(cp, q0, t);
      } else {
        v := Done;
      }
    }

    /** The loop from yy_match over the end-of-buffer actions: no match only at the end. */
    method MatchAll(q0: State, ghost t: seq<char>) returns (cp: Option<nat>, r: State)
      requires TablesOk(dfa) && Starts(dfa, q0) && Holds(text, t)
      modifies this, chBuf
      ensures cond == old(cond) && (chBuf == old(chBuf) || fresh(chBuf))
      ensures Holds(text, t)
      ensures cp == None ==> t == [] && nChars == cBufP == 0 && holdChar == NUL && atBol
      ensures cp.Some? ==> Decided(cp.value, r, q0, t)
    {
      var p := text;
      r := q0;
      var v := GoOn;
      while v == GoOn
        invariant chBuf == old(chBuf) || fresh(chBuf)
        invariant cond == old(cond) && Holds(text, t)
        invariant v == GoOn ==> r != dfa.eob && Matching(p, r, q0, t)
        invariant v == Done ==> Decided(p, r, q0, t)
        invariant v == AtEof ==> t == [] && nChars == cBufP == 0 && holdChar == NUL && atBol
        decreases v == GoOn, |unread|, |t| + 1 + text - p
      {
        v, p, r := Turn(p, r, q0, t);
      }
      cp := if v == Done then Some(p) else None;
    }

    /** c_lex: the next token, or none at the end of the file. */
    method Lex() returns (tok: Option<Token>)
      requires TablesOk(dfa) && Valid()
      modifies this, chBuf
      ensures chBuf == old(chBuf) || fresh(chBuf)
      ensures Valid()
      ensures tok == None ==> old(Rest()) == []
      ensures tok.Some? ==>
                && old(Rest()) != []
                && tok.value == Expected(dfa, dfa.start(old(cond), old(atBol)), old(Rest()))
                && tok.value.text != []
                && After(Rest(), old(Rest()), |tok.value.text|)
                && cond == action(old(cond), tok.value.rule, tok.value.text)
                && atBol == (tok.value.text[|tok.value.text| - 1] == '\n')
    {
      ghost var t := Rest();
      var q0 := Begin(t);
      var cp, r := MatchAll(q0, t);
      tok := None;
      if cp.Some? {
        var token := Finish(cp.value, r, q0, t);
        tok := Some(token);
      }
    }

    /** The tokens still to come. */
    ghost function Remaining(): seq<Token>
      requires TablesOk(dfa) && Valid()
      reads this, chBuf
    {
      Tokenize(dfa, action, cond, atBol, Rest())
    }

    /** One call of the scanner takes the first of the remaining tokens. */
    method Next() returns (tok: Option<Token>)
      requires TablesOk(dfa) && Valid()
      modifies this, chBuf
      ensures chBuf == old(chBuf) || fresh(chBuf)
      ensures Valid()
      ensures tok == None ==> old(Remaining()) == []
      ensures tok.Some? ==> old(Remaining()) == [tok.value] + Remaining() && |Rest()| < |old(Rest())|
    {
      ghost var c, b, t := cond, atBol, Rest();
      tok := Lex();
      if tok.Some? {
        TokenizeStep(dfa, action, c, b, t, Rest());
      }
    }

    /** Call the scanner until the end of the file: the texts of the tokens are the input,
        and each token is the longest match from the start state of its place. */
    method ScanAll() returns (tokens: seq<Token>)
      requires TablesOk(dfa) && Valid()
      modifies this, chBuf
      ensures Texts(tokens) == old(Rest())
      ensures AreTokens(dfa, action, old(cond), old(atBol), old(Rest()), tokens)
    {
      EveryTokenIs(dfa, action, cond, atBol, Rest());
      tokens := CallUntilEnd();
    }

    method CallUntilEnd() returns (tokens: seq<Token>)
      requires TablesOk(dfa) && Valid()
      modifies this, chBuf
      ensures tokens == old(Remaining())
    {
      tokens := [];
      ghost var all := Remaining();
      var tok := Next();
      while tok.Some?
        invariant chBuf == old(chBuf) || fresh(chBuf)
        invariant Valid()
        invariant tok == None ==> all == tokens
        invariant tok.Some? ==> all == tokens + ([tok.value] + Remaining())
        decreases tok.Some?, |Rest()|
      {
        Assoc(tokens, tok.value, Remaining());
        tokens := tokens + [tok.value];
        tok := Next();
      }
    }
  }
}
