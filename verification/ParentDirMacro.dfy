/** The streaming replacement of a macro in a text that is read character by character. */
module ParentDirMacro {
  const AT := '@'

  /** The macro: letters and underscores between two at signs. */
  const MACRO: string := "@PARENT_DIR@"

  /** What the code needs to know of a macro and of the letters of the locale. */
  ghost predicate MacroOk(macro: string, alpha: char -> bool) {
    && |macro| >= 2 && macro[0] == AT && macro[|macro| - 1] == AT
    && forall i :: 0 < i < |macro| - 1 ==> InName(alpha, macro[i])
  }

  /** A character that may stand between the at signs. */
  predicate InName(alpha: char -> bool, c: char) {
    c != AT && (alpha(c) || c == '_')
  }

  lemma ThisMacroOk(alpha: char -> bool)
    requires forall c :: 'A' <= c <= 'Z' ==> alpha(c)
    ensures MacroOk(MACRO, alpha)
  {
  }

  /** The macro stands at i. */
  predicate At(s: string, i: nat, macro: string) {
    i + |macro| <= |s| && s[i..i + |macro|] == macro
  }

  /** Left to right, every occurrence that does not overlap one already replaced. */
  function Replace(s: string, i: nat, macro: string, dir: string): string
    requires i <= |s| && macro != []
    decreases |s| - i
  {
    if i == |s| then []
    else if At(s, i, macro) then dir + Replace(s, i + |macro|, macro, dir)
    else [s[i]] + Replace(s, i + 1, macro, dir)
  }

  /** From i to n only the first character can begin the macro, and it has not yet. */
  ghost predicate Pending(s: string, i: nat, n: nat, alpha: char -> bool) {
    i < n <= |s| && s[i] == AT && forall j :: i < j < n ==> InName(alpha, s[j])
  }

  lemma FirstAndRest(s: string, i: nat, n: nat)
    requires i < n <= |s|
    ensures s[i..n] == [s[i]] + s[i + 1..n]
  {
  }

  lemma Assoc(a: string, b: string, c: string)
    ensures a + b + c == a + (b + c)
  {
  }

  lemma MacroAt(s: string, i: nat, macro: string, k: nat)
    requires At(s, i, macro) && k < |macro|
    ensures s[i + k] == macro[k]
  {
    assert s[i + k] == s[i..i + |macro|][k];
  }

  /** Where the macro does not stand, a character is copied. */
  lemma OneCopied(s: string, i: nat, n: nat, macro: string, dir: string, rest: string)
    requires i < n <= |s| && macro != [] && !At(s, i, macro)
    requires Replace(s, i + 1, macro, dir) == s[i + 1..n] + rest
    ensures Replace(s, i, macro, dir) == s[i..n] + rest
  {
    FirstAndRest(s, i, n);
    Assoc([s[i]], s[i + 1..n], rest);
  }

  /** Characters that are no at signs are copied. */
  lemma {:induction false} Copied(s: string, i: nat, n: nat, macro: string, dir: string)
    requires macro != [] && macro[0] == AT && i <= n <= |s| && forall j :: i <= j < n ==> s[j] != AT
    ensures Replace(s, i, macro, dir) == s[i..n] + Replace(s, n, macro, dir)
    decreases n - i
  {
    if i < n {
      if At(s, i, macro) {
        MacroAt(s, i, macro, 0);
      }
      Copied(s, i + 1, n, macro, dir);
      OneCopied(s, i, n, macro, dir, Replace(s, n, macro, dir));
    }
  }

  /** A pending at sign that turns out not to begin the macro is copied with what follows. */
  lemma PendingCopied(s: string, i: nat, n: nat, macro: string, dir: string, alpha: char -> bool)
    requires MacroOk(macro, alpha) && Pending(s, i, n, alpha) && !At(s, i, macro)
    ensures Replace(s, i, macro, dir) == s[i..n] + Replace(s, n, macro, dir)
  {
    Copied(s, i + 1, n, macro, dir);
    OneCopied(s, i, n, macro, dir, Replace(s, n, macro, dir));
  }

  /** The next at sign decides: the macro stands there exactly if what has been collected
      is as long and the same. */
  lemma NextAt(s: string, i: nat, n: nat, macro: string, alpha: char -> bool)
    requires MacroOk(macro, alpha) && Pending(s, i, n, alpha) && n < |s| && s[n] == AT
    ensures At(s, i, macro) <==> s[i..n + 1] == macro
  {
    if At(s, i, macro) {
      MacroAt(s, i, macro, |macro| - 1);
      if n < i + |macro| {
        MacroAt(s, i, macro, n - i);
      }
    }
  }

  /** Any other character ends the hope for the macro. */
  lemma OtherEnds(s: string, i: nat, n: nat, macro: string, alpha: char -> bool)
    requires MacroOk(macro, alpha) && Pending(s, i, n, alpha)
    requires n < |s| ==> s[n] != AT && !InName(alpha, s[n])
    ensures !At(s, i, macro)
  {
    if At(s, i, macro) {
      MacroAt(s, i, macro, |macro| - 1);
      if n < i + |macro| {
        MacroAt(s, i, macro, n - i);
      }
    }
  }

  // ----- the code -----

  /** The buffer and the text: what is settled, and from start on what is pending. */
  ghost predicate Streamed(s: string, n: nat, sb: string, start: int, macro: string, dir: string, alpha: char -> bool)
    requires n <= |s| && macro != []
  {
    if start < 0 then Replace(s, 0, macro, dir) == sb + Replace(s, n, macro, dir)
    else
      && start < |sb| && |sb| - start <= n
      && Pending(s, n - (|sb| - start), n, alpha) && sb[start..] == s[n - (|sb| - start)..n]
      && Replace(s, 0, macro, dir) == sb[..start] + Replace(s, n - (|sb| - start), macro, dir)
  }

  /** sed: one pass over the characters of the file. */
  method Sed(s: string, macro: string, dir: string, alpha: char -> bool) returns (sb: string)
    requires MacroOk(macro, alpha)
    ensures sb == Replace(s, 0, macro, dir)
  {
    sb := "";
    var start := -1;
    for n := 0 to |s|
      invariant -1 <= start && Streamed(s, n, sb, start, macro, dir, alpha)
    {
      sb, start := Step(s, n, sb, start, macro, dir, alpha);
    }
    if start >= 0 {
      ghost var i := |s| - (|sb| - start);
      OtherEnds(s, i, |s|, macro, alpha);
      PendingCopied(s, i, |s|, macro, dir, alpha);
      assert sb == sb[..start] + sb[start..];
    }
  }

  /** strncmp of the macro with what has been collected, over as many characters. */
  predicate SameSoFar(macro: string, collected: string) {
    |collected| <= |macro| && collected == macro[..|collected|]
  }

  /** Although only what has been collected is compared, it is the whole macro or nothing. */
  lemma WholeOrNothing(macro: string, collected: string, alpha: char -> bool)
    requires MacroOk(macro, alpha) && |collected| > 1 && collected[|collected| - 1] == AT
    ensures SameSoFar(macro, collected) <==> collected == macro
  {
    if SameSoFar(macro, collected) {
      assert collected[|collected| - 1] == macro[|collected| - 1];
    }
  }

  /** Nothing is pending any more. */
  lemma Settled(s: string, n: nat, sb: string, start: int, macro: string, dir: string, alpha: char -> bool)
    requires n <= |s| && MacroOk(macro, alpha) && 0 <= start && Streamed(s, n, sb, start, macro, dir, alpha)
    requires !At(s, n - (|sb| - start), macro)
    ensures Streamed(s, n, sb, -1, macro, dir, alpha)
  {
    var i := n - (|sb| - start);
    PendingCopied(s, i, n, macro, dir, alpha);
    Assoc(sb[..start], s[i..n], Replace(s, n, macro, dir));
    assert sb == sb[..start] + sb[start..];
  }

  lemma AtSignStarts(s: string, n: nat, sb: string, macro: string, dir: string, alpha: char -> bool)
    requires n < |s| && s[n] == AT && macro != [] && Streamed(s, n, sb, -1, macro, dir, alpha)
    ensures Streamed(s, n + 1, sb + [AT], |sb|, macro, dir, alpha)
  {
    assert (sb + [AT])[..|sb|] == sb && (sb + [AT])[|sb|..] == [AT] == s[n..n + 1];
  }

  lemma OtherIsCopied(s: string, n: nat, sb: string, macro: string, dir: string, alpha: char -> bool)
    requires n < |s| && s[n] != AT && MacroOk(macro, alpha) && Streamed(s, n, sb, -1, macro, dir, alpha)
    ensures Streamed(s, n + 1, sb + [s[n]], -1, macro, dir, alpha)
  {
    Copied(s, n, n + 1, macro, dir);
    assert s[n..n + 1] == [s[n]];
    Assoc(sb, [s[n]], Replace(s, n + 1, macro, dir));
  }

  lemma NameGoesOn(s: string, n: nat, sb: string, start: int, macro: string, dir: string, alpha: char -> bool)
    requires n < |s| && InName(alpha, s[n]) && macro != [] && 0 <= start && Streamed(s, n, sb, start, macro, dir, alpha)
    ensures Streamed(s, n + 1, sb + [s[n]], start, macro, dir, alpha)
  {
    var i := n - (|sb| - start);
    assert (sb + [s[n]])[..start] == sb[..start];
    assert (sb + [s[n]])[start..] == sb[start..] + [s[n]] == s[i..n + 1];
  }

  lemma MacroEnds(s: string, n: nat, sb: string, start: int, macro: string, dir: string, alpha: char -> bool)
    requires n < |s| && s[n] == AT && MacroOk(macro, alpha) && 0 <= start && Streamed(s, n, sb, start, macro, dir, alpha)
    requires At(s, n - (|sb| - start), macro) && n + 1 == n - (|sb| - start) + |macro|
    ensures Streamed(s, n + 1, sb[..start] + dir, -1, macro, dir, alpha)
  {
    Assoc(sb[..start], dir, Replace(s, n + 1, macro, dir));
  }

  /** An at sign when one is pending. */
  method SecondAt(s: string, n: nat, sb: string, start: int, macro: string, dir: string, ghost alpha: char -> bool)
      returns (sb': string, start': int)
    requires n < |s| && s[n] == AT && MacroOk(macro, alpha) && 0 <= start && Streamed(s, n, sb, start, macro, dir, alpha)
    ensures -1 <= start' && Streamed(s, n + 1, sb', start', macro, dir, alpha)
  {
    sb' := sb + [AT];
    var curpos := |sb'|;
    ghost var i := n - (|sb| - start);
    assert sb'[start..curpos] == s[i..n + 1] by {
      assert sb'[start..curpos] == sb[start..] + [AT];
    }
    WholeOrNothing(macro, sb'[start..curpos], alpha);
    NextAt(s, i, n, macro, alpha);
    if SameSoFar(macro, sb'[start..curpos]) {
      MacroEnds(s, n, sb, start, macro, dir, alpha);
      sb' := sb'[..start] + dir;
      start' := -1;
      assert sb' == sb[..start] + dir;
    } else {
      Settled(s, n, sb, start, macro, dir, alpha);
      AtSignStarts(s, n, sb, macro, dir, alpha);
      start' := curpos - 1;
    }
  }

  /** One character. */
  method Step(s: string, n: nat, sb: string, start: int, macro: string, dir: string, alpha: char -> bool)
      returns (sb': string, start': int)
    requires n < |s| && MacroOk(macro, alpha) && -1 <= start && Streamed(s, n, sb, start, macro, dir, alpha)
    ensures -1 <= start' && Streamed(s, n + 1, sb', start', macro, dir, alpha)
  {
    var c := s[n];
    sb', start' := sb + [c], start;
    if c == AT {
      if start == -1 {
        AtSignStarts(s, n, sb, macro, dir, alpha);
        start' := |sb'| - 1;
      } else {
        sb', start' := SecondAt(s, n, sb, start, macro, dir, alpha);
      }
    } else if !alpha(c) && c != '_' {
      if start != -1 {
        OtherEnds(s, n - (|sb| - start), n, macro, alpha);
        Settled(s, n, sb, start, macro, dir, alpha);
        start' := -1;
      }
      OtherIsCopied(s, n, sb, macro, dir, alpha);
    } else if start == -1 {
      OtherIsCopied(s, n, sb, macro, dir, alpha);
    } else {
      NameGoesOn(s, n, sb, start, macro, dir, alpha);
    }
  }

  datatype Option<T> = None | Some(value: T)

  datatype Place = TopDir | SubDir

  /** The parent of the HTML directory, from a page in it or in a directory of it. */
  function ParentDir(place: Place): string {
    match place
    case TopDir => ".."
    case SubDir => "../.."
  }

  /** Where a page is: in the HTML directory, or in a directory of it. */
  function DirectoryOf(place: Place, html: string, sub: string): seq<string> {
    match place
    case TopDir => [html]
    case SubDir => [html, sub]
  }

  /** Where a relative name made of parent directories leads from a directory; none, if it is
      no such name or leads out of what is known. */
  function Up(dir: seq<string>, name: string): Option<seq<string>>
    decreases |name|
  {
    if dir == [] || |name| < 2 || name[..2] != ".." then None
    else if |name| == 2 then Some(dir[..|dir| - 1])
    else if name[2] == '/' then Up(dir[..|dir| - 1], name[3..])
    else None
  }

  /** From every page, what the macro stands for leads to the directory that holds the HTML
      directory. */
  lemma ParentHoldsHtml(place: Place, html: string, sub: string)
    ensures Up(DirectoryOf(place, html, sub), ParentDir(place)) == Some([])
  {
    var dir, name := DirectoryOf(place, html, sub), ParentDir(place);
    assert dir[..|dir| - 1] == if place == TopDir then [] else [html];
    if place == SubDir {
      assert name[3..] == ".." && [html][..0] == [];
    }
  }

  /** Load a text with every macro replaced, in any locale in which A to Z are letters. */
  method LoadText(s: string, place: Place, alpha: char -> bool) returns (sb: string)
    requires forall c :: 'A' <= c <= 'Z' ==> alpha(c)
    ensures sb == Replace(s, 0, MACRO, ParentDir(place))
  {
    ThisMacroOk(alpha);
    sb := Sed(s, MACRO, ParentDir(place), alpha);
  }
}
