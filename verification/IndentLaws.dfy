/** What the indentation means: nesting, the spaces of each line, and the strings of JSON. */
module IndentLaws {
  import opened Prelude
  import opened Indent

  // ----- nesting

  predicate Matches(open: char, close: char) {
    (open == '{' && close == '}') || (open == '[' && close == ']')
  }

  /** The brackets open after `s`, outermost first; none if one was closed by the wrong bracket. */
  function OpenBrackets(s: string): Option<string> {
    if s == "" then Some("")
    else
      match OpenBrackets(Init(s))
      case None => None
      case Some(open) =>
        if !Outside(s) then Some(open)
        else if Last(s) in "{[" then Some(open + [Last(s)])
        else if Last(s) !in "}]" then Some(open)
        else if open != "" && Matches(Last(open), Last(s)) then Some(Init(open))
        else None
  }

  predicate Balanced(s: string) {
    OpenBrackets(s) == Some("")
  }

  lemma {:induction false} DepthIsNesting(s: string)
    requires OpenBrackets(s).Some?
    ensures Depth(s) == |OpenBrackets(s).value|
  {
    if s != "" {
      DepthIsNesting(Init(s));
    }
  }

  lemma {:induction false} PrefixNests(s: string, i: nat)
    requires OpenBrackets(s).Some? && i <= |s|
    ensures OpenBrackets(s[..i]).Some?
  {
    if i < |s| {
      assert Init(s)[..i] == s[..i];
      PrefixNests(Init(s), i);
    } else {
      assert s[..i] == s;
    }
  }

  /** On balanced input the counter is the number of open brackets all along: never negative, zero at the end. */
  lemma CounterIsNesting(s: string, i: nat)
    requires Balanced(s) && i <= |s|
    ensures OpenBrackets(s[..i]).Some? && Depth(s[..i]) == |OpenBrackets(s[..i]).value|
    ensures Depth(s) == 0
  {
    PrefixNests(s, i);
    DepthIsNesting(s[..i]);
    DepthIsNesting(s);
  }

  // ----- the spaces of a line

  /** Number of spaces from position `i` on. */
  function SpacesAt(s: string, i: nat): nat
    decreases |s| - i
  {
    if i < |s| && s[i] == ' ' then 1 + SpacesAt(s, i + 1) else 0
  }

  function AtLeastZero(n: int): nat {
    if n < 0 then 0 else n
  }

  /** The line starts with a closing bracket. */
  predicate Closes(s: string, i: nat) {
    i < |s| && s[i] in "}]"
  }

  /** After a line break outside of quotes come exactly two spaces a level, a closing bracket being one level up. */
  predicate LineIndented(s: string, j: nat)
    requires j < |s|
  {
    s[j] == '\n' && Outside(s[..j]) ==>
      var n := SpacesAt(s, j + 1);
      n == 2 * AtLeastZero(Depth(s[..j]) - (if Closes(s, j + 1 + n) then 1 else 0))
  }

  predicate LinesIndented(s: string) {
    forall j :: 0 <= j < |s| ==> LineIndented(s, j)
  }

  lemma {:induction false} SpacesWithin(s: string, i: nat)
    requires i <= |s|
    ensures i + SpacesAt(s, i) <= |s|
    ensures forall k :: i <= k < i + SpacesAt(s, i) ==> s[k] == ' '
    ensures i + SpacesAt(s, i) < |s| ==> s[i + SpacesAt(s, i)] != ' '
    decreases |s| - i
  {
    if i < |s| && s[i] == ' ' {
      SpacesWithin(s, i + 1);
    }
  }

  lemma {:induction false} SpacesExactly(s: string, i: nat, n: nat)
    requires i + n <= |s| && forall k :: i <= k < i + n ==> s[k] == ' '
    requires i + n < |s| ==> s[i + n] != ' '
    ensures SpacesAt(s, i) == n
    decreases n
  {
    if n > 0 {
      SpacesExactly(s, i + 1, n - 1);
    }
  }

  /** The output for the first characters starts the output. */
  lemma {:induction false} OutputGrows(s: string, i: nat)
    requires i <= |s|
    ensures Indented(s[..i]) <= Indented(s)
  {
    if i == |s| {
      assert s[..i] == s;
    } else {
      assert Init(s)[..i] == s[..i];
      OutputGrows(Init(s), i);
      Pieces(s);
      hide Indented, Copied, Lead, Trail;
      assert Indented(Init(s)) <= Indented(s);
    }
  }

  /** What comes next in the output: a line break, or the next character. */
  lemma NextInOutput(s: string, i: nat)
    requires i < |s|
    ensures |Indented(s[..i])| < |Indented(s)|
    ensures Indented(s)[|Indented(s[..i])|] == if Lead(s[..i + 1]) != "" then '\n' else s[i]
  {
    var p := s[..i + 1];
    assert Init(p) == s[..i] && Last(p) == s[i];
    Pieces(p);
    OutputGrows(s, i + 1);
    assert Lead(p) != "" ==> Lead(p)[0] == '\n';
    hide Indented, Copied, Lead, Trail;
    var front := Indented(Init(p));
    assert Indented(p)[|front|] == if Lead(p) != "" then Lead(p)[0] else s[i];
  }

  lemma {:induction false} SpacesAtLeast(s: string, i: nat, n: nat)
    requires i + n <= |s| && forall k :: i <= k < i + n ==> s[k] == ' '
    ensures SpacesAt(s, i) >= n
    ensures i + n < |s| && s[i + n] == ' ' ==> SpacesAt(s, i) > n
    decreases n
  {
    if n > 0 {
      SpacesAtLeast(s, i + 1, n - 1);
    }
  }

  /** A break with its spaces, somewhere in the output. */
  lemma MarginIn(front: string, level: int, out: string)
    requires front + ("\n" + Spaces(level)) <= out
    ensures var b, n := |front|, 2 * AtLeastZero(level);
      && b + 1 + n <= |out| && out[b] == '\n' && forall k :: b + 1 <= k < b + 1 + n ==> out[k] == ' '
  {
    SpacesAreBlank(level);
    var spaces := Spaces(level);
    hide Spaces;
    var head := front + ("\n" + spaces);
    assert forall k :: 0 <= k < |head| ==> out[k] == head[k];
    assert forall k :: 0 <= k < |spaces| ==> head[|front| + 1 + k] == spaces[k];
  }

  lemma MarginsAre(p: string)
    requires p != ""
    ensures Lead(p) != "" ==> Lead(p) == "\n" + Spaces(Depth(p)) && Last(p) != ' '
    ensures Trail(p) != "" ==> Trail(p) == "\n" + Spaces(Depth(p))
  {
  }

  /** The pieces of the output for one character, in the whole output. */
  lemma PiecesIn(s: string, i: nat)
    requires i < |s|
    ensures var p := s[..i + 1]; var front := Indented(s[..i]);
      && front + Lead(p) <= Indented(s) && Copied(p) + Trail(p) <= Indented(s)
      && |front + Lead(p)| < |Indented(s)| && Indented(s)[|front + Lead(p)|] == s[i]
  {
    var p := s[..i + 1];
    assert Init(p) == s[..i] && Last(p) == s[i];
    Pieces(p);
    OutputGrows(s, i + 1);
    hide Indented, Copied, Lead, Trail;
    var start := Indented(s[..i]) + Lead(p);
    assert Copied(p)[|start|] == s[i];
    assert start <= Copied(p) <= Indented(p);
  }

  lemma LeadExactly(s: string, i: nat)
    requires i < |s| && Lead(s[..i + 1]) != ""
    ensures var p := s[..i + 1]; var b := |Indented(s[..i])|;
      b < |Indented(s)| && Indented(s)[b] == '\n' && SpacesAt(Indented(s), b + 1) == 2 * AtLeastZero(Depth(p))
  {
    hide Indented, Copied, Lead, Trail, Depth, SpacesAt, Spaces;
    var p, out, front := s[..i + 1], Indented(s), Indented(s[..i]);
    PiecesIn(s, i);
    MarginsAre(p);
    MarginIn(front, Depth(p), out);
    SpacesAreBlank(Depth(p));
    SpacesExactly(out, |front| + 1, 2 * AtLeastZero(Depth(p)));
  }

  lemma TrailExactly(s: string, i: nat)
    requires i < |s| && Trail(s[..i + 1]) != ""
    ensures var p := s[..i + 1]; var b := |Copied(p)|;
      && b < |Indented(s)| && Indented(s)[b] == '\n'
      && SpacesAt(Indented(s), b + 1) >= 2 * AtLeastZero(Depth(p))
      && (SpacesAt(Indented(s), b + 1) == 2 * AtLeastZero(Depth(p)) <==> !(i + 1 < |s| && s[i + 1] == ' '))
  {
    hide Indented, Copied, Lead, Trail, Depth, SpacesAt, Spaces;
    var p, out := s[..i + 1], Indented(s);
    var n := 2 * AtLeastZero(Depth(p));
    PiecesIn(s, i);
    MarginsAre(p);
    MarginIn(Copied(p), Depth(p), out);
    SpacesAreBlank(Depth(p));
    SpacesAtLeast(out, |Copied(p)| + 1, n);
    AfterPiece(s, i);
    if !(i + 1 < |s| && s[i + 1] == ' ') {
      SpacesExactly(out, |Copied(p)| + 1, n);
    }
  }

  /** After the trail of a character the output ends, breaks, or goes on with the next character. */
  lemma AfterPiece(s: string, i: nat)
    requires i < |s|
    ensures var end := |Copied(s[..i + 1])| + |Trail(s[..i + 1])|;
      && end <= |Indented(s)| && (i + 1 == |s| ==> end == |Indented(s)|)
      && (i + 1 < |s| ==> end < |Indented(s)| && (Indented(s)[end] == ' ' <==> s[i + 1] == ' '))
  {
    hide Indented, Copied, Lead, Trail, Depth;
    Pieces(s[..i + 1]);
    OutputGrows(s, i + 1);
    if i + 1 < |s| {
      var next := s[..i + 1 + 1];
      NextInOutput(s, i + 1);
      MarginsAre(next);
      assert Last(next) == s[i + 1];
    } else {
      assert s[..i + 1] == s;
    }
  }

  /**
   For any input: the break before a closing bracket is followed by exactly two spaces a
   level; the break after a comma or an opening bracket by at least as many, and by exactly
   as many unless the input has a space there.
  */
  lemma InsertedBreaks(s: string, i: nat)
    requires i < |s|
    ensures var p := s[..i + 1]; var b := |Indented(s[..i])|;
      Lead(p) != "" ==>
        b < |Indented(s)| && Indented(s)[b] == '\n' && SpacesAt(Indented(s), b + 1) == 2 * AtLeastZero(Depth(p))
    ensures var p := s[..i + 1]; var b := |Copied(p)|;
      Trail(p) != "" ==>
        && b < |Indented(s)| && Indented(s)[b] == '\n'
        && SpacesAt(Indented(s), b + 1) >= 2 * AtLeastZero(Depth(p))
        && (SpacesAt(Indented(s), b + 1) == 2 * AtLeastZero(Depth(p)) <==> !(i + 1 < |s| && s[i + 1] == ' '))
  {
    hide Indented, Copied, Lead, Trail, Depth, SpacesAt;
    if Lead(s[..i + 1]) != "" {
      LeadExactly(s, i);
    }
    if Trail(s[..i + 1]) != "" {
      TrailExactly(s, i);
    }
  }

  /** The spaces that the output has after `i` characters are those of the input, and no closing bracket follows. */
  lemma {:induction false} SpacesCopied(s: string, i: nat)
    requires i <= |s|
    ensures var e := |Indented(s[..i])|;
      && e <= |Indented(s)| && SpacesAt(Indented(s), e) == SpacesAt(s, i)
      && (Outside(s[..i]) ==> !Closes(Indented(s), e + SpacesAt(s, i)))
    decreases |s| - i
  {
    hide Indented, Copied, Lead, Trail, Depth, Outside;
    if i == |s| {
      assert s[..i] == s;
    } else {
      NextInOutput(s, i);
      CharOutside(s, i);
      if s[i] == ' ' {
        SpaceCopied(s, i);
        SpacesCopied(s, i + 1);
      }
    }
  }

  lemma CharOutside(s: string, i: nat)
    requires i < |s|
    ensures s[i] != '"' ==> Outside(s[..i + 1]) == Outside(s[..i])
    ensures Outside(s[..i + 1]) && s[i] in "}]" ==> Lead(s[..i + 1]) != ""
    ensures Lead(s[..i + 1]) != "" ==> s[i] in "}]"
  {
    var p := s[..i + 1];
    assert Init(p) == s[..i] && Last(p) == s[i];
  }

  /** A space or a line break is copied, and nothing else. */
  lemma SpaceCopied(s: string, i: nat)
    requires i < |s| && (s[i] == ' ' || s[i] == '\n')
    ensures |Indented(s[..i + 1])| == |Indented(s[..i])| + 1
    ensures Lead(s[..i + 1]) == "" && Trail(s[..i + 1]) == ""
  {
    assert Init(s[..i + 1]) == s[..i] && Last(s[..i + 1]) == s[i];
  }

  lemma {:induction false} SpacesAdd(s: string, i: nat, n: nat)
    requires i + n <= |s| && forall k :: i <= k < i + n ==> s[k] == ' '
    ensures SpacesAt(s, i) == n + SpacesAt(s, i + n)
    decreases n
  {
    if n > 0 {
      SpacesAdd(s, i + 1, n - 1);
    }
  }

  /** The break before a closing bracket always has its spaces. */
  lemma LeadLine(s: string, i: nat)
    requires i < |s| && Lead(s[..i + 1]) != ""
    ensures var b := |Indented(s[..i])|; b < |Indented(s)| && LineIndented(Indented(s), b)
  {
    hide Indented, Copied, Trail, SpacesAt, Spaces;
    var p, out, front := s[..i + 1], Indented(s), Indented(s[..i]);
    LeadExactly(s, i);
    PiecesIn(s, i);
    MarginsAre(p);
    SpacesAreBlank(Depth(p));
    QuotesAgree(s[..i]);
    OutputGrows(s, i);
    LeadDepth(s, i);
    hide *;
    assert out[..|front|] == front;
    IsLine(out, |front|);
  }

  lemma LeadDepth(s: string, i: nat)
    requires i < |s| && Lead(s[..i + 1]) != ""
    ensures Depth(s[..i + 1]) == Depth(s[..i]) - 1 && s[i] in "}]"
    ensures |Lead(s[..i + 1])| == 1 + 2 * AtLeastZero(Depth(s[..i + 1]))
  {
    var p := s[..i + 1];
    assert Init(p) == s[..i] && Last(p) == s[i];
    SpacesAreBlank(Depth(p));
  }

  /** The condition on one line break, spelled out. */
  lemma IsLine(s: string, j: nat)
    requires j < |s|
    ensures LineIndented(s, j) <==> (s[j] == '\n' && Outside(s[..j]) ==>
      SpacesAt(s, j + 1) == 2 * AtLeastZero(Depth(s[..j]) - (if Closes(s, j + 1 + SpacesAt(s, j + 1)) then 1 else 0)))
  {
  }

  /** The break after a comma or an opening bracket has its spaces exactly when the input adds none. */
  lemma TrailLine(s: string, i: nat)
    requires i < |s| && Trail(s[..i + 1]) != ""
    ensures var b := |Copied(s[..i + 1])|;
      b < |Indented(s)| && (LineIndented(Indented(s), b) <==> SpacesAt(s, i + 1) == 0)
  {
    hide *;
    var p, out := s[..i + 1], Indented(s);
    var b, n := |Copied(p)|, 2 * AtLeastZero(Depth(p));
    TrailOutside(p);
    QuotesAgree(p);
    TrailMargin(s, i);
    SpacesCopied(s, i + 1);
    SpacesAdd(out, b + 1, n);
    IsLine(out, b);
  }

  lemma PrefixOf(a: string, b: string, c: string)
    requires a + b <= c
    ensures c[..|a|] == a
  {
    assert (a + b)[..|a|] == a;
  }

  /** Where the break after a character stands, and its spaces. */
  lemma TrailMargin(s: string, i: nat)
    requires i < |s| && Trail(s[..i + 1]) != ""
    ensures var p, out := s[..i + 1], Indented(s); var b, n := |Copied(p)|, 2 * AtLeastZero(Depth(p));
      && b + 1 + n == |Indented(p)| <= |out| && out[b] == '\n' && out[..b] == Copied(p)
      && forall k :: b + 1 <= k < b + 1 + n ==> out[k] == ' '
  {
    hide *;
    var p := s[..i + 1];
    PiecesIn(s, i);
    Pieces(p);
    MarginsAre(p);
    SpacesAreBlank(Depth(p));
    Levels(Depth(p));
    MarginIn(Copied(p), Depth(p), Indented(s));
    PrefixOf(Copied(p), Trail(p), Indented(s));
  }

  lemma Levels(level: int)
    ensures AtLeastZero(level) == if level < 0 then 0 else level
  {
  }

  /** A break of the input has its spaces exactly when the input has them. */
  lemma OwnLine(s: string, i: nat)
    requires i < |s| && s[i] == '\n'
    ensures var b := |Indented(s[..i])|;
      b < |Indented(s)| && (LineIndented(Indented(s), b) <==>
        (Outside(s[..i]) ==> SpacesAt(s, i + 1) == 2 * AtLeastZero(Depth(s[..i]))))
  {
    hide *;
    var out, front := Indented(s), Indented(s[..i]);
    QuotesAgree(s[..i]);
    OutputGrows(s, i);
    NextInOutput(s, i);
    SpaceCopied(s, i);
    SpacesCopied(s, i + 1);
    CharOutside(s, i);
    assert out[..|front|] == front;
    IsLine(out, |front|);
  }

  /** Every position of the output is in the piece of one character. */
  lemma {:induction false} Locate(s: string, j: nat) returns (i: nat)
    requires j < |Indented(s)|
    ensures i < |s| && |Indented(s[..i])| <= j < |Indented(s[..i + 1])|
  {
    hide Indented;
    Emptied(s);
    if j < |Indented(Init(s))| {
      i := Locate(Init(s), j);
      assert Init(s)[..i] == s[..i] && Init(s)[..i + 1] == s[..i + 1];
    } else {
      i := |s| - 1;
      assert s[..i] == Init(s) && s[..i + 1] == s;
    }
  }

  lemma Emptied(s: string)
    ensures s == "" ==> Indented(s) == ""
  {
  }

  /** The piece of one character, and its margins, which hold only spaces after the break. */
  lemma PieceParts(s: string, i: nat)
    requires i < |s|
    ensures var p := s[..i + 1];
      && Indented(p) == Indented(s[..i]) + Lead(p) + [s[i]] + Trail(p)
      && |Copied(p)| == |Indented(s[..i])| + |Lead(p)| + 1
      && (forall k :: 1 <= k < |Lead(p)| ==> Lead(p)[k] == ' ')
      && (forall k :: 1 <= k < |Trail(p)| ==> Trail(p)[k] == ' ')
  {
    var p := s[..i + 1];
    assert Init(p) == s[..i] && Last(p) == s[i];
    SpacesAreBlank(Depth(p));
    hide Spaces, Depth, Outside;
  }

  /** The breaks in the piece of one character: inserted before it, the character itself, inserted after it. */
  lemma BreakIn(s: string, i: nat, j: nat)
    requires i < |s| && |Indented(s[..i])| <= j < |Indented(s[..i + 1])|
    ensures j < |Indented(s)|
    ensures Indented(s)[j] == '\n' ==>
      || (Lead(s[..i + 1]) != "" && j == |Indented(s[..i])|)
      || (s[i] == '\n' && j == |Indented(s[..i])|)
      || (Trail(s[..i + 1]) != "" && j == |Copied(s[..i + 1])|)
  {
    hide *;
    var p, front := s[..i + 1], Indented(s[..i]);
    PieceParts(s, i);
    OutputGrows(s, i + 1);
    CharOutside(s, i);
    if j < |front| + |Lead(p)| {
      assert Indented(p)[j] == Lead(p)[j - |front|];
    } else if j > |front| + |Lead(p)| {
      assert Indented(p)[j] == Trail(p)[j - |Copied(p)|];
    }
  }

  /** The input has no spaces where a break is inserted, and two a level after its own breaks outside of quotes. */
  predicate NeatAt(s: string, i: nat)
    requires i < |s|
  {
    && (Trail(s[..i + 1]) != "" ==> SpacesAt(s, i + 1) == 0)
    && (s[i] == '\n' && Outside(s[..i]) ==> SpacesAt(s, i + 1) == 2 * AtLeastZero(Depth(s[..i])))
  }

  predicate Neat(s: string) {
    forall i :: 0 <= i < |s| ==> NeatAt(s, i)
  }

  /**
   For any input: every line break of the output outside of quotes is followed by exactly
   two spaces a level, exactly when the input is neat.
  */
  lemma IndentationExactly(s: string)
    ensures LinesIndented(Indented(s)) <==> Neat(s)
  {
    hide Indented, Copied, Lead, Trail, Depth, Outside, LineIndented;
    if Neat(s) {
      forall j | 0 <= j < |Indented(s)|
        ensures LineIndented(Indented(s), j)
      {
        NeatLine(s, j);
      }
    }
    if LinesIndented(Indented(s)) {
      forall i | 0 <= i < |s|
        ensures NeatAt(s, i)
      {
        if Trail(s[..i + 1]) != "" {
          TrailLine(s, i);
        }
        if s[i] == '\n' {
          OwnLine(s, i);
        }
      }
    }
  }

  lemma NeatLine(s: string, j: nat)
    requires Neat(s) && j < |Indented(s)|
    ensures LineIndented(Indented(s), j)
  {
    hide Indented, Copied, Lead, Trail, Depth, Outside, LineIndented;
    var i := Locate(s, j);
    assert NeatAt(s, i);
    BreakIn(s, i, j);
    if Indented(s)[j] != '\n' {
      IsLine(Indented(s), j);
    } else if Trail(s[..i + 1]) != "" && j == |Copied(s[..i + 1])| {
      TrailLine(s, i);
    } else if Lead(s[..i + 1]) != "" && j == |Indented(s[..i])| {
      LeadLine(s, i);
    } else {
      OwnLine(s, i);
    }
  }

  /** Input without whitespace outside of quotes is neat. */
  lemma CompactIsNeat(s: string)
    requires Compact(s)
    ensures Neat(s)
  {
    hide Trail, Depth;
    forall i | 0 <= i < |s|
      ensures NeatAt(s, i)
    {
      CompactAt(s, i);
      if Trail(s[..i + 1]) != "" {
        TrailOutside(s[..i + 1]);
        if i + 1 < |s| {
          CompactAt(s, i + 1);
          CharOutside(s, i + 1);
        }
      }
      CharOutside(s, i);
    }
  }

  lemma {:induction false} CompactAt(s: string, i: nat)
    requires Compact(s) && i < |s|
    ensures Outside(s[..i + 1]) ==> !IsSpace(s[i])
  {
    if i + 1 < |s| {
      CompactAt(Init(s), i);
      assert Init(s)[..i + 1] == s[..i + 1];
    } else {
      assert s[..i + 1] == s;
    }
  }

  // ----- strings as JSON has them

  /** Section 7 of RFC 8259: outside of a string, in one, or after the backslash of an escape. */
  datatype Lexer = Out | In | Escaped

  function Lex(s: string): Lexer {
    if s == "" then Out
    else
      match Lex(Init(s))
      case Out => if Last(s) == '"' then In else Out
      case In => if Last(s) == '"' then Out else if Last(s) == '\\' then Escaped else In
      case Escaped => In
  }

  /** Number of backslashes that `s` ends with. */
  function Backslashes(s: string): nat {
    if s == "" || Last(s) != '\\' then 0 else 1 + Backslashes(Init(s))
  }

  /** Backslashes only occur in strings, as in all JSON. */
  predicate OnlyEscapes(s: string) {
    s == "" || (OnlyEscapes(Init(s)) && !(Last(s) == '\\' && Lex(Init(s)) == Out))
  }

  /** No quote comes after a nonempty even run of backslashes. */
  predicate NoEvenRun(s: string) {
    s == "" ||
    (NoEvenRun(Init(s)) && (Last(s) == '"' ==> Backslashes(Init(s)) == 0 || Backslashes(Init(s)) % 2 == 1))
  }

  /** The quote flag is right after every character of `s`. */
  predicate FlagAgrees(s: string) {
    (s == "" || FlagAgrees(Init(s))) && (Outside(s) <==> Lex(s) == Out)
  }

  lemma {:induction false} EscapedIsOdd(s: string)
    requires OnlyEscapes(s)
    ensures Lex(s) == Out ==> Backslashes(s) == 0
    ensures Lex(s) == Escaped <==> Backslashes(s) % 2 == 1
  {
    if s != "" {
      EscapedIsOdd(Init(s));
    }
  }

  /** The flag follows the strings of JSON exactly when no quote comes after an even run of backslashes. */
  lemma {:induction false} FlagExactly(s: string)
    requires OnlyEscapes(s)
    ensures FlagAgrees(s) <==> NoEvenRun(s)
  {
    if s != "" {
      FlagExactly(Init(s));
      EscapedIsOdd(Init(s));
      assert Toggles(s) <==> Last(s) == '"' && Backslashes(Init(s)) == 0;
    }
  }

  /** The string `\\` as JSON writes it leaves the flag inside of it. */
  lemma EscapedBackslashMisleads() returns (s: string)
    ensures OnlyEscapes(s) && Lex(s) == Out && !Outside(s)
  {
    s := "\"\\\\\"";
    var two := "\"\\";
    var three := "\"\\\\";
    assert Init(s) == three && Init(three) == two && Init(two) == "\"" && Init("\"") == "";
    assert Lex("\"") == In && Lex(two) == Escaped && Lex(three) == In;
    assert !Outside("\"") && !Outside(two) && !Outside(three);
    assert OnlyEscapes("\"") && OnlyEscapes(two) && OnlyEscapes(three);
  }
}
