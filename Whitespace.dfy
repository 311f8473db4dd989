/** `CleanWhitespace` of the scraping service: every run of white space becomes one space
    (`Regex.Replace(input, @"\s+", " ")`) and the result is trimmed. Its meaning is stated
    against an independent definition: the white-space-separated words of the input, joined
    by single spaces. */
module Whitespace {
  import opened Strings

  /** A word: a non-empty run of non-white-space characters. */
  predicate IsWord(w: string)
  {
    w != [] && forall i :: 0 <= i < |w| ==> !IsWhiteSpace(w[i])
  }

  /** Every element is a word. */
  predicate AllWords(ws: seq<string>)
  {
    ws == [] || (IsWord(ws[0]) && AllWords(ws[1..]))
  }

  /** White space occurs only as single spaces strictly inside the text, each followed by a
      non-white-space character: no leading or trailing white space and no doubled spaces. */
  predicate Normalized(r: string)
  {
    forall i :: 0 <= i < |r| && IsWhiteSpace(r[i]) ==>
      r[i] == ' ' && 0 < i < |r| - 1 && !IsWhiteSpace(r[i + 1])
  }

  /** The leading run of non-white-space characters of `s`. */
  function TakeWord(s: string): (w: string)
    ensures |w| <= |s|
    ensures forall i :: 0 <= i < |w| ==> !IsWhiteSpace(w[i])
    ensures |w| == |s| || IsWhiteSpace(s[|w|])
    ensures s != [] && !IsWhiteSpace(s[0]) ==> |w| >= 1
  {
    if s != [] && !IsWhiteSpace(s[0]) then [s[0]] + TakeWord(s[1..]) else []
  }

  /** `TakeWord` keeps a prefix. */
  lemma {:induction false} TakeWordIsPrefix(s: string)
    ensures TakeWord(s) == s[..|TakeWord(s)|]
  {
    if s != [] && !IsWhiteSpace(s[0]) {
      TakeWordIsPrefix(s[1..]);
    }
  }

  /** The white-space-separated words of `s`, in order. */
  function Words(s: string): seq<string>
    decreases |s|
  {
    var t := TrimStart(s);
    if t == [] then [] else
      var w := TakeWord(t);
      [w] + Words(t[|w|..])
  }

  /** Every element of `Words(s)` is a word. */
  lemma {:induction false} WordsAreWords(s: string)
    ensures AllWords(Words(s))
    decreases |s|
  {
    var t := TrimStart(s);
    if t != [] {
      var w := TakeWord(t);
      var rest := t[|w|..];
      WordsAreWords(rest);
      assert IsWord(w);
      var ws := Words(s);
      assert ws == [w] + Words(rest);
      assert ws[1..] == Words(rest);
    }
  }

  /** `Regex.Replace(s, @"\s+", " ")`: each maximal run of white space becomes one space. */
  function Collapse(s: string): string
    decreases |s|
  {
    if s == [] then []
    else if IsWhiteSpace(s[0]) then " " + Collapse(TrimStart(s))
    else [s[0]] + Collapse(s[1..])
  }

  /** `CleanWhitespace(input)`. */
  function CleanWhitespace(s: string): string
  {
    Trim(Collapse(s))
  }

  /** What cleaning means: the words of the input joined by single spaces, hence no white
      space at either end and none but single spaces inside. */
  lemma CleanWhitespaceMeaning(s: string)
    ensures CleanWhitespace(s) == Join(" ", Words(s))
    ensures Normalized(CleanWhitespace(s))
  {
    CollapseTrimmed(s);
    WordsAreWords(s);
    JoinedWordsNormalized(Words(s));
  }

  /** Cleaning is idempotent. */
  lemma CleanWhitespaceIdempotent(s: string)
    ensures CleanWhitespace(CleanWhitespace(s)) == CleanWhitespace(s)
  {
    CleanWhitespaceMeaning(s);
    CleanWhitespaceMeaning(CleanWhitespace(s));
    WordsAreWords(s);
    WordsOfJoin(Words(s));
  }

  /** The piece count `Split(' ').Length` of a cleaned text is its number of words (when it
      has any). */
  lemma {:induction false} CleanedSplitLength(s: string)
    requires Words(s) != []
    ensures SplitLength(CleanWhitespace(s), ' ') == |Words(s)|
  {
    var ws := Words(s);
    CleanWhitespaceMeaning(s);
    WordsAreWords(s);
    CountJoin(ws, ' ');
    NoSpaceInWords(ws);
  }

  /** A cleaned text is empty exactly when the input is all white space. */
  lemma CleanWhitespaceEmpty(s: string)
    ensures CleanWhitespace(s) == [] <==> AllWhiteSpace(s)
  {
    CleanWhitespaceMeaning(s);
    var t := TrimStart(s);
    if t == [] {
      TrimStartDropsWhiteSpace(s);
      assert s[..|s|] == s;
    } else {
      TrimStartIsSuffix(s);
      assert !IsWhiteSpace(s[|s| - |t|]);
      assert Words(s) != [];
      WordsAreWords(s);
      JoinedWordsNormalized(Words(s));
    }
  }

  // ---------------------------------------------------------------- proof helpers

  lemma {:induction false} NoSpaceInWords(ws: seq<string>)
    requires AllWords(ws)
    ensures SumCount(ws, ' ') == 0
  {
    if ws != [] {
      NoSpaceInWord(ws[0]);
      NoSpaceInWords(ws[1..]);
    }
  }

  lemma {:induction false} NoSpaceInWord(w: string)
    requires forall i :: 0 <= i < |w| ==> !IsWhiteSpace(w[i])
    ensures Count(w, ' ') == 0
  {
    if w != [] {
      NoSpaceInWord(w[1..]);
    }
  }

  lemma TrimStartNoop(s: string)
    requires s == [] || !IsWhiteSpace(s[0])
    ensures TrimStart(s) == s
  {
  }

  lemma TrimEndNoop(s: string)
    requires s == [] || !IsWhiteSpace(s[|s| - 1])
    ensures TrimEnd(s) == s
  {
  }

  lemma TrimEndSpace(s: string)
    ensures TrimEnd(s + " ") == TrimEnd(s)
  {
    assert (s + " ")[..|s + " "| - 1] == s;
  }

  lemma WordsSkipSpace(s: string)
    ensures Words(" " + s) == Words(s)
  {
    assert (" " + s)[1..] == s;
  }

  /** A run of non-white-space followed by white space (or nothing) is taken whole. */
  lemma {:induction false} TakeWordPrefix(w: string, rest: string)
    requires forall i :: 0 <= i < |w| ==> !IsWhiteSpace(w[i])
    requires rest == [] || IsWhiteSpace(rest[0])
    ensures TakeWord(w + rest) == w
  {
    if w != [] {
      assert (w + rest)[1..] == w[1..] + rest;
      TakeWordPrefix(w[1..], rest);
    }
  }

  /** Words joined by single spaces are normalised, and non-empty exactly when there is a word. */
  lemma {:induction false} JoinedWordsNormalized(ws: seq<string>)
    requires AllWords(ws)
    ensures Normalized(Join(" ", ws))
    ensures ws != [] ==> Join(" ", ws) != [] && !IsWhiteSpace(Join(" ", ws)[0])
  {
    if |ws| == 1 {
    } else if |ws| > 1 {
      JoinedWordsNormalized(ws[1..]);
      var w, j := ws[0], Join(" ", ws[1..]);
      var r := w + " " + j;
      assert Join(" ", ws) == r;
      assert forall i :: 0 <= i < |w| ==> r[i] == w[i];
      forall i | |w| <= i < |r| && IsWhiteSpace(r[i])
        ensures r[i] == ' ' && 0 < i < |r| - 1 && !IsWhiteSpace(r[i + 1])
      {
        if i == |w| {
          assert r[i + 1] == j[0];
        } else {
          assert r[i] == j[i - |w| - 1];
          assert i + 1 < |r| ==> r[i + 1] == j[i - |w|];
        }
      }
    }
  }

  /** A non-empty text that starts with a non-white-space character collapses to its first
      word followed by the collapse of the rest. */
  lemma {:induction false} CollapseWord(s: string)
    requires s != [] && !IsWhiteSpace(s[0])
    ensures Collapse(s) == TakeWord(s) + Collapse(s[|TakeWord(s)|..])
    decreases |s|
  {
    var t := s[1..];
    var w := TakeWord(s);
    assert Collapse(s) == [s[0]] + Collapse(t);
    assert w == [s[0]] + TakeWord(t);
    if t != [] && !IsWhiteSpace(t[0]) {
      CollapseWord(t);
      var n := |TakeWord(t)|;
      assert |w| == n + 1;
      assert t[n..] == s[|w|..];
      AppendAssoc([s[0]], TakeWord(t), Collapse(t[n..]));
    } else {
      assert TakeWord(t) == [];
      assert s[|w|..] == t;
    }
  }

  /** One space when `s` ends in white space, nothing otherwise. */
  function EndSpace(s: string): string
  {
    if s != [] && IsWhiteSpace(s[|s| - 1]) then " " else ""
  }

  /** Leading white space does not change the words. */
  lemma WordsTrimStart(s: string)
    ensures Words(TrimStart(s)) == Words(s)
  {
    var t := TrimStart(s);
    TrimStartNoop(t);
  }

  /** The words of a text that starts with a word. */
  lemma WordsCons(s: string)
    requires s != [] && !IsWhiteSpace(s[0])
    ensures Words(s) == [TakeWord(s)] + Words(s[|TakeWord(s)|..])
  {
    TrimStartNoop(s);
  }

  /** The shape of the collapse of a text that does not start with white space: its words
      joined by single spaces, then one space if the text ends in white space. */
  lemma {:induction false} CollapseShape(s: string)
    requires s == [] || !IsWhiteSpace(s[0])
    ensures Collapse(s) == Join(" ", Words(s)) + EndSpace(s)
    decreases |s|
  {
    if s != [] {
      var rest := s[|TakeWord(s)|..];
      if rest == [] {
        ShapeOneWord(s);
      } else if TrimStart(rest) == [] {
        ShapeTrailingSpace(s);
      } else {
        CollapseShape(TrimStart(rest));
        ShapeMoreWords(s);
      }
    }
  }

  /** Case of `CollapseShape`: the text is one word. */
  lemma ShapeOneWord(s: string)
    requires s != [] && !IsWhiteSpace(s[0])
    requires |TakeWord(s)| == |s|
    ensures Collapse(s) == Join(" ", Words(s)) + EndSpace(s)
  {
    var w := TakeWord(s);
    TakeWordIsPrefix(s);
    assert w == s;
    CollapseWord(s);
    WordsCons(s);
    assert s[|w|..] == [];
    assert Words(s) == [w];
    assert EndSpace(s) == [];
  }

  /** Case of `CollapseShape`: one word followed by white space only. */
  lemma ShapeTrailingSpace(s: string)
    requires s != [] && !IsWhiteSpace(s[0])
    requires |TakeWord(s)| < |s| && TrimStart(s[|TakeWord(s)|..]) == []
    ensures Collapse(s) == Join(" ", Words(s)) + EndSpace(s)
  {
    TrailingSpaceCollapse(s);
    TrailingSpaceWords(s);
    var rest := s[|TakeWord(s)|..];
    BlankEndsInWhiteSpace(rest);
    assert s[|s| - 1] == rest[|rest| - 1];
  }

  /** One word followed by white space only collapses to the word and one space. */
  lemma TrailingSpaceCollapse(s: string)
    requires s != [] && !IsWhiteSpace(s[0])
    requires |TakeWord(s)| < |s| && TrimStart(s[|TakeWord(s)|..]) == []
    ensures Collapse(s) == TakeWord(s) + " "
  {
    var rest := s[|TakeWord(s)|..];
    assert rest != [] && IsWhiteSpace(rest[0]);
    CollapseSpace(rest);
    assert Collapse(TrimStart(rest)) == [];
    CollapseWord(s);
  }

  /** One word followed by white space only has that one word. */
  lemma TrailingSpaceWords(s: string)
    requires s != [] && !IsWhiteSpace(s[0])
    requires |TakeWord(s)| < |s| && TrimStart(s[|TakeWord(s)|..]) == []
    ensures Words(s) == [TakeWord(s)]
  {
    assert Words(s[|TakeWord(s)|..]) == [];
    WordsCons(s);
  }

  /** A non-empty text that trims to nothing ends in white space. */
  lemma BlankEndsInWhiteSpace(r: string)
    requires r != [] && TrimStart(r) == []
    ensures IsWhiteSpace(r[|r| - 1])
  {
    TrimStartDropsWhiteSpace(r);
    assert r[..|r| - |TrimStart(r)|] == r;
  }

  /** Case of `CollapseShape`: one word, white space, and at least one more word. */
  lemma ShapeMoreWords(s: string)
    requires s != [] && !IsWhiteSpace(s[0])
    requires |TakeWord(s)| < |s|
    requires var t := TrimStart(s[|TakeWord(s)|..]);
      t != [] && Collapse(t) == Join(" ", Words(t)) + EndSpace(t)
    ensures Collapse(s) == Join(" ", Words(s)) + EndSpace(s)
  {
    var w := TakeWord(s);
    var t := TrimStart(s[|w|..]);
    CollapseAfterWord(s);
    WordsAfterWord(s);
    EndSpaceAfterWord(s);
    var j := Join(" ", Words(t));
    calc {
      Collapse(s);
      w + " " + Collapse(t);
      w + " " + (j + EndSpace(t));
      (w + " " + j) + EndSpace(s);
    }
  }

  /** A word followed by white space and more text collapses to the word, one space and
      the collapse of the text. */
  lemma CollapseAfterWord(s: string)
    requires s != [] && !IsWhiteSpace(s[0])
    requires |TakeWord(s)| < |s|
    ensures Collapse(s) == TakeWord(s) + " " + Collapse(TrimStart(s[|TakeWord(s)|..]))
  {
    var w := TakeWord(s);
    var rest := s[|w|..];
    assert IsWhiteSpace(s[|w|]) && rest[0] == s[|w|];
    CollapseWord(s);
    CollapseSpace(rest);
    AppendAssoc(w, " ", Collapse(TrimStart(rest)));
  }

  lemma AppendAssoc(a: string, b: string, c: string)
    ensures a + (b + c) == a + b + c
  {
  }

  /** Text that starts with white space collapses to one space and the collapse of the
      rest. */
  lemma CollapseSpace(r: string)
    requires r != [] && IsWhiteSpace(r[0])
    ensures Collapse(r) == " " + Collapse(TrimStart(r))
  {
  }

  /** The words of a word followed by white space and more words. */
  lemma WordsAfterWord(s: string)
    requires s != [] && !IsWhiteSpace(s[0])
    requires |TakeWord(s)| < |s| && TrimStart(s[|TakeWord(s)|..]) != []
    ensures Join(" ", Words(s))
      == TakeWord(s) + " " + Join(" ", Words(TrimStart(s[|TakeWord(s)|..])))
  {
    var w := TakeWord(s);
    var rest := s[|w|..];
    var t := TrimStart(rest);
    WordsCons(s);
    WordsTrimStart(rest);
    WordsCons(t);
    JoinCons(" ", w, Words(t));
  }

  /** Skipping a word and the white space after it keeps the last character. */
  lemma EndSpaceAfterWord(s: string)
    requires |TakeWord(s)| < |s| && TrimStart(s[|TakeWord(s)|..]) != []
    ensures EndSpace(TrimStart(s[|TakeWord(s)|..])) == EndSpace(s)
  {
    var rest := s[|TakeWord(s)|..];
    var t := TrimStart(rest);
    TrimStartIsSuffix(rest);
    assert t[|t| - 1] == s[|s| - 1];
  }

  /** A text with no white space at either end is its own trim. */
  lemma TrimNoop(n: string)
    requires n == [] || (!IsWhiteSpace(n[0]) && !IsWhiteSpace(n[|n| - 1]))
    ensures Trim(n) == n
  {
    TrimStartNoop(n);
    TrimEndNoop(n);
  }

  /** A trailing space is trimmed away. */
  lemma TrimSpaceAfter(n: string)
    requires n == [] || (!IsWhiteSpace(n[0]) && !IsWhiteSpace(n[|n| - 1]))
    ensures Trim(n + " ") == n
  {
    if n == [] {
      assert n + " " == " ";
    } else {
      TrimStartNoop(n + " ");
      TrimEndSpace(n);
      TrimEndNoop(n);
    }
  }

  /** A leading space is trimmed away. */
  lemma TrimSpaceBefore(y: string)
    ensures Trim(" " + y) == Trim(y)
  {
    assert (" " + y)[1..] == y;
  }

  /** Trimming the collapse gives the joined words. */
  lemma CollapseTrimmed(s: string)
    ensures Trim(Collapse(s)) == Join(" ", Words(s))
  {
    var n := Join(" ", Words(s));
    WordsAreWords(s);
    JoinedWordsNormalized(Words(s));
    assert n == [] || (!IsWhiteSpace(n[0]) && !IsWhiteSpace(n[|n| - 1]));
    if s != [] && IsWhiteSpace(s[0]) {
      var t := TrimStart(s);
      assert Collapse(s) == " " + Collapse(t);
      WordsTrimStart(s);
      CollapseShape(t);
      TrimSpaceBefore(Collapse(t));
      TrimCollapsed(n, EndSpace(t));
    } else {
      CollapseShape(s);
      TrimCollapsed(n, EndSpace(s));
    }
  }

  lemma TrimCollapsed(n: string, e: string)
    requires n == [] || (!IsWhiteSpace(n[0]) && !IsWhiteSpace(n[|n| - 1]))
    requires e == "" || e == " "
    ensures Trim(n + e) == n
  {
    if e == "" {
      assert n + e == n;
      TrimNoop(n);
    } else {
      TrimSpaceAfter(n);
    }
  }

  /** The words of words joined by single spaces are those words. */
  lemma {:induction false} WordsOfJoin(ws: seq<string>)
    requires AllWords(ws)
    ensures Words(Join(" ", ws)) == ws
  {
    if |ws| == 1 {
      var w := ws[0];
      TrimStartNoop(w);
      TakeWordPrefix(w, []);
      assert w + [] == w;
      assert w[|w|..] == [];
    } else if |ws| > 1 {
      var w, j := ws[0], Join(" ", ws[1..]);
      WordsOfJoin(ws[1..]);
      var s := w + (" " + j);
      assert Join(" ", ws) == s;
      TrimStartNoop(s);
      TakeWordPrefix(w, " " + j);
      assert s[|w|..] == " " + j;
      WordsSkipSpace(j);
      assert ws == [w] + ws[1..];
    }
  }
}
