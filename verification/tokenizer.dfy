/** Splitting an input line into its fields: `String.Split` on a single
    delimiter character, with no trimming and with empty fields kept. */
module Tokenizer {

  /** The character between the fields of an input line. */
  const Delimiter: char := ' '

  /** True when no token contains the delimiter. */
  predicate NoDelimiter(tokens: seq<string>, d: char)
  {
    forall i :: 0 <= i < |tokens| ==> d !in tokens[i]
  }

  /** Concatenates the tokens with one delimiter between adjacent ones
      (`String.Join`); the reference definition that Split inverts. */
  function Join(tokens: seq<string>, d: char): string
  {
    if |tokens| == 0 then ""
    else if |tokens| == 1 then tokens[0]
    else Join(tokens[..|tokens| - 1], d) + [d] + tokens[|tokens| - 1]
  }

  /** `s.Split(d)`: the maximal delimiter-free runs of `s`, in order;
      consecutive delimiters give empty tokens, and there is always at
      least one token. */
  function Split(s: string, d: char): (r: seq<string>)
    ensures |r| >= 1
    ensures NoDelimiter(r, d)
    decreases |s|
  {
    if |s| == 0 then [""]
    else
      var init := Split(s[..|s| - 1], d);
      var c := s[|s| - 1];
      if c == d then init + [""]
      else init[..|init| - 1] + [init[|init| - 1] + [c]]
  }

  /** The line tokeniser of the calculator. */
  function Tokenize(line: string): seq<string>
  {
    Split(line, Delimiter)
  }

  /** Join of a list extended by one token. */
  lemma JoinSnoc(pre: seq<string>, t: string, d: char)
    requires |pre| >= 1
    ensures Join(pre + [t], d) == Join(pre, d) + [d] + t
  {
    var ts := pre + [t];
    assert ts[..|ts| - 1] == pre;
  }

  /** One step of Split, at the last character of a non-empty string. */
  lemma SplitSnoc(x: string, c: char, d: char)
    ensures var init := Split(x, d);
            Split(x + [c], d) ==
              if c == d then init + [""]
              else init[..|init| - 1] + [init[|init| - 1] + [c]]
  {
    var s := x + [c];
    assert s[..|s| - 1] == x;
  }

  /** Extending the last token extends the join by the same character. */
  lemma JoinExtendLast(pre: seq<string>, last: string, c: char, d: char)
    ensures Join(pre + [last + [c]], d) == Join(pre + [last], d) + [c]
  {
    if |pre| == 0 {
      assert pre + [last + [c]] == [last + [c]];
      assert pre + [last] == [last];
    } else {
      JoinSnoc(pre, last, d);
      JoinSnoc(pre, last + [c], d);
    }
  }

  /** There is one more token than there are delimiters. */
  lemma {:induction false} SplitCount(s: string, d: char)
    ensures |Split(s, d)| == multiset(s)[d] + 1
    decreases |s|
  {
    if |s| > 0 {
      var x := s[..|s| - 1];
      var c := s[|s| - 1];
      assert s == x + [c];
      SplitCount(x, d);
      SplitSnoc(x, c, d);
    }
  }

  /** The first token is the prefix of the string up to its first delimiter
      (the whole string when there is none). */
  lemma FirstToken(s: string, d: char)
    ensures var t := Split(s, d)[0];
            t <= s && (|t| < |s| ==> s[|t|] == d)
  {
    var ts := Split(s, d);
    JoinSplit(s, d);
    if |ts| >= 2 {
      JoinHead(ts, d);
      assert s == ts[0] + ([d] + Join(ts[1..], d));
    }
  }

  /** Join of two or more tokens, seen from the front. */
  lemma {:induction false} JoinHead(ts: seq<string>, d: char)
    requires |ts| >= 2
    ensures Join(ts, d) == ts[0] + [d] + Join(ts[1..], d)
    decreases |ts|
  {
    if |ts| > 2 {
      var pre := ts[..|ts| - 1];
      var last := ts[|ts| - 1];
      JoinHead(pre, d);
      assert pre[1..] == ts[1..][..|ts| - 2];
      JoinSnoc(ts[1..][..|ts| - 2], last, d);
      assert ts[1..][..|ts| - 2] + [last] == ts[1..];
    } else {
      assert ts[..1] == [ts[0]];
      assert ts[1..] == [ts[1]];
    }
  }

  /** Re-joining the tokens of a split gives back the original string. */
  lemma {:induction false} JoinSplit(s: string, d: char)
    ensures Join(Split(s, d), d) == s
    decreases |s|
  {
    if |s| > 0 {
      var x := s[..|s| - 1];
      var c := s[|s| - 1];
      assert s == x + [c];
      JoinSplit(x, d);
      JoinSplitStep(x, c, d);
    }
  }

  /** The inductive step of JoinSplit: one more character. */
  lemma JoinSplitStep(x: string, c: char, d: char)
    requires Join(Split(x, d), d) == x
    ensures Join(Split(x + [c], d), d) == x + [c]
  {
    var init := Split(x, d);
    SplitSnoc(x, c, d);
    if c == d {
      JoinSnoc(init, "", d);
    } else {
      var pre := init[..|init| - 1];
      var last := init[|init| - 1];
      assert init == pre + [last];
      JoinExtendLast(pre, last, c, d);
    }
  }

  /** A delimiter-free string is a single token. */
  lemma {:induction false} SplitWithoutDelimiter(t: string, d: char)
    requires d !in t
    ensures Split(t, d) == [t]
    decreases |t|
  {
    if |t| > 0 {
      assert d !in t[..|t| - 1];
      SplitWithoutDelimiter(t[..|t| - 1], d);
      assert t == t[..|t| - 1] + [t[|t| - 1]];
    }
  }

  /** Extending the last token of a concatenation extends the last token of
      its second part. */
  lemma ExtendLast(left: seq<string>, right: seq<string>, c: char)
    requires |right| >= 1
    ensures var both := left + right;
            both[..|both| - 1] + [both[|both| - 1] + [c]] ==
            left + (right[..|right| - 1] + [right[|right| - 1] + [c]])
  {
    var both := left + right;
    assert both[..|both| - 1] == left + right[..|right| - 1];
  }

  /** Splitting two strings joined by a delimiter gives the tokens of the
      first followed by the tokens of the second. */
  lemma {:induction false} SplitConcat(x: string, d: char, y: string)
    ensures Split(x + [d] + y, d) == Split(x, d) + Split(y, d)
    decreases |y|
  {
    if |y| == 0 {
      assert x + [d] + y == x + [d];
      SplitSnoc(x, d, d);
    } else {
      var y' := y[..|y| - 1];
      var c := y[|y| - 1];
      var z := x + [d] + y';
      assert y == y' + [c];
      assert x + [d] + y == z + [c];
      SplitConcat(x, d, y');
      SplitSnoc(z, c, d);
      SplitSnoc(y', c, d);
      var left := Split(x, d);
      var init := Split(y', d);
      assert Split(z, d) == left + init;
      if c == d {
        assert Split(z + [c], d) == (left + init) + [""];
        assert Split(y, d) == init + [""];
      } else {
        ExtendLast(left, init, c);
      }
    }
  }

  /** Splitting inverts joining: a non-empty list of delimiter-free tokens is
      recovered from its join. With JoinSplit, Split(s) is the one such list
      whose join is s. */
  lemma {:induction false} SplitJoin(tokens: seq<string>, d: char)
    requires |tokens| >= 1 && NoDelimiter(tokens, d)
    ensures Split(Join(tokens, d), d) == tokens
    decreases |tokens|
  {
    if |tokens| == 1 {
      SplitWithoutDelimiter(tokens[0], d);
    } else {
      var pre := tokens[..|tokens| - 1];
      var last := tokens[|tokens| - 1];
      assert d !in last;
      assert NoDelimiter(pre, d) by {
        forall i | 0 <= i < |pre| ensures d !in pre[i] {
          assert pre[i] == tokens[i];
        }
      }
      assert tokens == pre + [last];
      SplitJoin(pre, d);
      JoinSnoc(pre, last, d);
      SplitConcat(Join(pre, d), d, last);
      SplitWithoutDelimiter(last, d);
    }
  }
}
