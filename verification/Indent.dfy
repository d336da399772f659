/**
 The JSON indenter of the alert plugins: a character loop with a quote flag that looks at
 one previous character, and a depth counter.
*/
module Indent {

  function Init(s: string): string
    requires s != ""
  {
    s[..|s| - 1]
  }

  function Last(s: string): char
    requires s != ""
  {
    s[|s| - 1]
  }

  /** The last character of `s` is a quote, not directly after a backslash. */
  predicate Toggles(s: string) {
    s != "" && Last(s) == '"' && !(|s| > 1 && s[|s| - 2] == '\\')
  }

  /** After `s`, outside of quotes. */
  predicate Outside(s: string) {
    s == "" || Outside(Init(s)) != Toggles(s)
  }

  /** Brackets opened less brackets closed, outside of quotes. */
  function Depth(s: string): int {
    if s == "" then 0
    else Depth(Init(s)) + (if !Outside(s) then 0 else if Last(s) in "{[" then 1 else if Last(s) in "}]" then -1 else 0)
  }

  /** Two spaces a level, none below level one. */
  function Spaces(level: int): string {
    if level <= 0 then "" else Spaces(level - 1) + "  "
  }

  function Lead(s: string): string
    requires s != ""
  {
    if Outside(s) && Last(s) in "}]" then "\n" + Spaces(Depth(s)) else ""
  }

  function Trail(s: string): string
    requires s != ""
  {
    if Outside(s) && Last(s) in ",{[" then "\n" + Spaces(Depth(s)) else ""
  }

  /** A line break before each closing bracket and after each comma and opening bracket. */
  function Indented(s: string): string {
    if s == "" then "" else Indented(Init(s)) + Lead(s) + [Last(s)] + Trail(s)
  }

  // ----- the loop

  /** `substr($s, $i, 1)` */
  function CharAt(s: string, i: nat): string {
    if i < |s| then [s[i]] else ""
  }

  method Indent(json: string) returns (result: string)
    ensures result == Indented(json)
  {
    hide Outside, Depth, Indented, Spaces;
    result := "";
    var pos := 0;
    var prevChar := "";
    var outOfQuotes := true;
    var i := 0;
    Nothing();
    while i <= |json|
      invariant 0 <= i <= |json| + 1
      invariant i <= |json| ==> result == Indented(json[..i]) && pos == Depth(json[..i])
      invariant i <= |json| ==> outOfQuotes == Outside(json[..i])
      invariant i <= |json| ==> prevChar == (if i == 0 then "" else [json[i - 1]])
      invariant i > |json| ==> result == Indented(json)
    {
      var next := CharAt(json, i);
      if i < |json| {
        OneMore(json, i);
      } else {
        assert json[..i] == json;
      }
      if next == "\"" && prevChar != "\\" {
        outOfQuotes := !outOfQuotes;
      } else if (next == "}" || next == "]") && outOfQuotes {
        result := result + "\n";
        pos := pos - 1;
        result := AppendSpaces(result, pos);
      }
      result := result + next;
      if (next == "," || next == "{" || next == "[") && outOfQuotes {
        result := result + "\n";
        if next == "{" || next == "[" {
          pos := pos + 1;
        }
        result := AppendSpaces(result, pos);
      }
      prevChar := next;
      i := i + 1;
    }
  }

  lemma Nothing()
    ensures Indented("") == "" && Depth("") == 0 && Outside("")
  {
  }

  /** `text`, with a line break after it if there is one to add. */
  function Broken(text: string, line: bool, level: int): string {
    if line then text + "\n" + Spaces(level) else text
  }

  lemma BreakIsMargin(text: string, line: bool, level: int)
    ensures Broken(text, line, level) == text + (if line then "\n" + Spaces(level) else "")
  {
    if line {
      assert text + "\n" + Spaces(level) == text + ("\n" + Spaces(level));
    } else {
      assert text + "" == text;
    }
  }

  lemma OnePiece(s: string)
    requires s != ""
    ensures var closed := Broken(Indented(Init(s)), Outside(s) && Last(s) in "}]", Depth(s));
      Indented(s) == Broken(closed + [Last(s)], Outside(s) && Last(s) in ",{[", Depth(s))
  {
    hide Outside, Depth, Spaces, Broken;
    var closed := Broken(Indented(Init(s)), Outside(s) && Last(s) in "}]", Depth(s));
    BreakIsMargin(Indented(Init(s)), Outside(s) && Last(s) in "}]", Depth(s));
    BreakIsMargin(closed + [Last(s)], Outside(s) && Last(s) in ",{[", Depth(s));
    assert closed == Indented(Init(s)) + Lead(s);
  }

  /** What the next character does to the output, the depth and the quotes. */
  lemma OneMore(s: string, i: nat)
    requires i < |s|
    ensures Outside(s[..i + 1]) == (Outside(s[..i]) != (s[i] == '"' && !(i > 0 && s[i - 1] == '\\')))
    ensures var depth, outside := Depth(s[..i + 1]), Outside(s[..i + 1]);
      && depth == Depth(s[..i]) + (if !outside then 0 else if s[i] in "{[" then 1 else if s[i] in "}]" then -1 else 0)
      && var closed := Broken(Indented(s[..i]), outside && s[i] in "}]", depth);
      Indented(s[..i + 1]) == Broken(closed + [s[i]], outside && s[i] in ",{[", depth)
  {
    hide Indented, Spaces, Broken;
    assert Init(s[..i + 1]) == s[..i] && Last(s[..i + 1]) == s[i];
    OnePiece(s[..i + 1]);
  }

  /** The inner loop. */
  method AppendSpaces(text: string, pos: int) returns (result: string)
    ensures result == text + Spaces(pos)
  {
    result := text;
    var j := 0;
    while j < pos
      invariant 0 <= j && (j <= pos || j == 0)
      invariant result == text + Spaces(j)
    {
      result := result + "  ";
      j := j + 1;
    }
  }

  // ----- the inverse

  predicate IsSpace(c: char) {
    c == ' ' || c == '\n' || c == '\t' || c == '\r'
  }

  predicate Blank(s: string) {
    forall c :: c in s ==> IsSpace(c)
  }

  /** Deletes whitespace outside of quotes, the quotes being those of `s` itself. */
  function Strip(s: string): string {
    if s == "" then ""
    else Strip(Init(s)) + (if Outside(s) && IsSpace(Last(s)) then "" else [Last(s)])
  }

  /** Blank text changes neither quotes nor depth, and is deleted outside of quotes. */
  lemma {:induction false} AddBlank(s: string, blank: string)
    requires Blank(blank)
    ensures Outside(s + blank) == Outside(s) && Depth(s + blank) == Depth(s)
    ensures Outside(s) ==> Strip(s + blank) == Strip(s)
    decreases |blank|
  {
    if blank == "" {
      assert s + blank == s;
    } else {
      assert Init(s + blank) == s + Init(blank);
      assert Last(s + blank) == Last(blank) && Last(blank) in blank;
      AddBlank(s, Init(blank));
    }
  }

  lemma {:induction false} SpacesAreBlank(level: int)
    ensures Blank(Spaces(level)) && |Spaces(level)| == 2 * (if level < 0 then 0 else level)
    ensures forall i :: 0 <= i < |Spaces(level)| ==> Spaces(level)[i] == ' '
  {
    if level > 0 {
      SpacesAreBlank(level - 1);
    }
  }

  lemma MarginsAreBlank(s: string)
    requires s != ""
    ensures Blank(Lead(s)) && Blank(Trail(s))
    ensures Lead(s) != "" ==> Last(s) in "}]" && Outside(s) && Outside(Init(s))
  {
    SpacesAreBlank(Depth(s));
  }

  predicate EndsInBackslash(s: string) {
    s != "" && Last(s) == '\\'
  }

  /** One more character has the same effect after any text with the same quotes and ending. */
  lemma AddChar(s: string, t: string, c: char)
    requires Outside(s) == Outside(t) && Depth(s) == Depth(t)
    requires c == '"' ==> EndsInBackslash(s) == EndsInBackslash(t)
    ensures Outside(s + [c]) == Outside(t + [c]) && Depth(s + [c]) == Depth(t + [c])
  {
    assert Init(s + [c]) == s && Init(t + [c]) == t;
  }

  /** The output up to the copy of the last character of `s`. */
  function Copied(s: string): string
    requires s != ""
  {
    Indented(Init(s)) + Lead(s) + [Last(s)]
  }

  lemma Pieces(s: string)
    requires s != ""
    ensures s == Init(s) + [Last(s)]
    ensures Copied(s) == (Indented(Init(s)) + Lead(s)) + [Last(s)]
    ensures Indented(s) == Copied(s) + Trail(s)
  {
  }

  /**
   The quotes and the depth of the output, recomputed from scratch, are those of the input
   at every copied character and after it.
  */
  lemma {:induction false} QuotesAgree(s: string)
    ensures Outside(Indented(s)) == Outside(s) && Depth(Indented(s)) == Depth(s)
    ensures EndsInBackslash(Indented(s)) == EndsInBackslash(s)
    ensures s != "" ==> Outside(Copied(s)) == Outside(s) && Depth(Copied(s)) == Depth(s)
  {
    hide Outside, Depth, Copied, Lead, Trail, Blank, EndsInBackslash, Indented;
    if s == "" {
      Nothing();
    } else {
      var front := Indented(Init(s));
      QuotesAgree(Init(s));
      Pieces(s);
      MarginsAreBlank(s);
      AddBlank(front, Lead(s));
      assert Last(s) == '"' ==> front + Lead(s) == front;
      AddChar(front + Lead(s), Init(s), Last(s));
      AddBlank(Copied(s), Trail(s));
      EndOfPiece(s);
    }
  }

  lemma EndOfPiece(s: string)
    requires s != ""
    ensures EndsInBackslash(Indented(s)) == EndsInBackslash(s)
  {
    MarginsAreBlank(s);
    if Trail(s) == "" {
      assert Last(Indented(s)) == Last(s);
    } else {
      assert Last(Indented(s)) == Last(Trail(s)) && Last(Trail(s)) in Trail(s);
    }
  }

  lemma StripChar(s: string, c: char)
    ensures Strip(s + [c]) == Strip(s) + (if Outside(s + [c]) && IsSpace(c) then "" else [c])
  {
    assert Init(s + [c]) == s;
  }

  /** Deleting whitespace outside of quotes undoes the indentation. */
  lemma {:induction false} StripInverts(s: string)
    ensures Strip(Indented(s)) == Strip(s)
  {
    if s != "" {
      hide Outside, Depth, Copied, Lead, Trail, Blank, EndsInBackslash, Indented, Strip;
      var front := Indented(Init(s));
      StripInverts(Init(s));
      QuotesAgree(Init(s));
      QuotesAgree(s);
      Pieces(s);
      MarginsAreBlank(s);
      AddBlank(front, Lead(s));
      assert Lead(s) == "" ==> front + Lead(s) == front;
      StripChar(front + Lead(s), Last(s));
      StripChar(Init(s), Last(s));
      AddBlank(Copied(s), Trail(s));
      if Trail(s) == "" {
        assert Copied(s) + Trail(s) == Copied(s);
      } else {
        TrailOutside(s);
      }
    }
  }

  lemma TrailOutside(s: string)
    requires s != "" && Trail(s) != ""
    ensures Outside(s)
  {
  }

  /** No whitespace outside of quotes. */
  predicate Compact(s: string) {
    s == "" || (Compact(Init(s)) && !(Outside(s) && IsSpace(Last(s))))
  }

  lemma {:induction false} StripShortens(s: string)
    ensures |Strip(s)| <= |s|
    ensures Strip(s) == s <==> Compact(s)
    ensures |Strip(s)| == |s| <==> Compact(s)
  {
    if s != "" {
      StripShortens(Init(s));
      assert s == Init(s) + [Last(s)];
    }
  }

  /** The round trip gives the input back exactly when it has no whitespace outside of quotes. */
  lemma RoundTripExactly(s: string)
    ensures Strip(Indented(s)) == s <==> Compact(s)
  {
    StripInverts(s);
    StripShortens(s);
  }
}
