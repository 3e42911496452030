/** The pieces of Go's `strings` package the request logic relies on, on the
    separator "\n": `Split`, `Join` and `HasPrefix`. */
module Text {

  const Newline: char := '\n'

  /** strings.HasPrefix: `s` agrees with `prefix` character by character over
      the length of `prefix`, so that `s` is `prefix` followed by the rest. */
  function HasPrefix(s: string, prefix: string): (b: bool)
    ensures b <==> |prefix| <= |s| && forall i :: 0 <= i < |prefix| ==> s[i] == prefix[i]
    ensures b ==> s == prefix + s[|prefix|..]
  {
    |prefix| <= |s| && s[..|prefix|] == prefix
  }

  /** strings.Split(s, "\n"): the pieces between line breaks. The empty string
      splits into one empty piece, and a trailing line break yields a final
      empty piece. */
  function Split(s: string): (lines: seq<string>)
    ensures |lines| == multiset(s)[Newline] + 1
    ensures forall i :: 0 <= i < |lines| ==> Newline !in lines[i]
    decreases |s|
  {
    if |s| == 0 then [""]
    else
      var rest := Split(s[1..]);
      assert s == [s[0]] + s[1..];
      if s[0] == Newline then [""] + rest
      else [[s[0]] + rest[0]] + rest[1..]
  }

  /** strings.Join(lines, "\n"); joining no lines gives the empty string.
      One line break goes between each two consecutive pieces. */
  function Join(lines: seq<string>): (s: string)
    ensures |lines| == 0 ==> s == ""
    ensures |lines| > 0 && (forall i :: 0 <= i < |lines| ==> Newline !in lines[i]) ==>
      multiset(s)[Newline] == |lines| - 1
  {
    if |lines| == 0 then ""
    else if |lines| == 1 then lines[0]
    else lines[0] + [Newline] + Join(lines[1..])
  }

  /** Putting a piece in front of at least one piece puts it and a line break in front of the join. */
  lemma {:induction false} JoinCons(a: string, lines: seq<string>)
    requires |lines| >= 1
    ensures Join([a] + lines) == a + [Newline] + Join(lines)
  {
    assert ([a] + lines)[1..] == lines;
  }

  /** Extending the first piece extends the join by the same text in front. */
  lemma {:induction false} JoinExtendFirst(c: char, lines: seq<string>)
    requires |lines| >= 1
    ensures Join([[c] + lines[0]] + lines[1..]) == [c] + Join(lines)
  {
  }

  /** Splitting a text splits off its first character as Split's definition says. */
  lemma {:induction false} SplitFirst(s: string)
    requires |s| > 0
    ensures s[0] == Newline ==> Split(s) == [""] + Split(s[1..])
    ensures s[0] != Newline ==> Split(s) == [[s[0]] + Split(s[1..])[0]] + Split(s[1..])[1..]
  {
  }

  /** One step of the round trip, for a text that starts with a line break. */
  lemma {:induction false} JoinSplitStepBreak(s: string)
    requires |s| > 0 && s[0] == Newline
    requires Join(Split(s[1..])) == s[1..]
    ensures Join(Split(s)) == s
  {
    var rest := Split(s[1..]);
    SplitFirst(s);
    JoinCons("", rest);
    assert s == [Newline] + s[1..];
  }

  /** One step of the round trip, for a text that starts with another character. */
  lemma {:induction false} JoinSplitStepChar(s: string)
    requires |s| > 0 && s[0] != Newline
    requires Join(Split(s[1..])) == s[1..]
    ensures Join(Split(s)) == s
  {
    var rest := Split(s[1..]);
    SplitFirst(s);
    JoinExtendFirst(s[0], rest);
    assert s == [s[0]] + s[1..];
  }

  /** Joining the pieces of a split gives back the text. */
  lemma {:induction false} JoinSplit(s: string)
    ensures Join(Split(s)) == s
    decreases |s|
  {
    if |s| > 0 {
      JoinSplit(s[1..]);
      if s[0] == Newline {
        JoinSplitStepBreak(s);
      } else {
        JoinSplitStepChar(s);
      }
    }
  }

  /** A piece without a line break splits into itself. */
  lemma {:induction false} SplitLine(a: string)
    requires Newline !in a
    ensures Split(a) == [a]
    decreases |a|
  {
    if |a| > 0 {
      SplitLine(a[1..]);
      assert [a[0]] + a[1..] == a;
    }
  }

  /** A line break after a piece without one splits off exactly that piece. */
  lemma {:induction false} SplitAfterLine(a: string, t: string)
    requires Newline !in a
    ensures Split(a + [Newline] + t) == [a] + Split(t)
    decreases |a|
  {
    var s := a + [Newline] + t;
    if |a| == 0 {
      assert s[1..] == t;
    } else {
      assert s[1..] == a[1..] + [Newline] + t;
      SplitAfterLine(a[1..], t);
      assert [a[0]] + a[1..] == a;
    }
  }

  /** Splitting the join of at least one line-break-free piece gives back the pieces. */
  lemma {:induction false} SplitJoin(lines: seq<string>)
    requires |lines| >= 1
    requires forall i :: 0 <= i < |lines| ==> Newline !in lines[i]
    ensures Split(Join(lines)) == lines
    decreases |lines|
  {
    if |lines| == 1 {
      SplitLine(lines[0]);
    } else {
      SplitJoin(lines[1..]);
      SplitAfterLine(lines[0], Join(lines[1..]));
      assert [lines[0]] + lines[1..] == lines;
    }
  }
}
