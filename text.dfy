/**
 * The few pieces of Python string handling the backend relies on:
 * `str.split()` with no separator, `sep.join(parts)`, splitting a text
 * into its lines, and `str.rstrip(c)`.
 */
module Text {

  /** Python's `str.isspace()` for one character. */
  predicate IsSpace(c: char)
  {
    || c == ' '
    || '\t' <= c <= '\r'
    || '\U{1c}' <= c <= '\U{1f}'
    || c == '\U{85}'
    || c == '\U{a0}'
    || c == '\U{1680}'
    || '\U{2000}' <= c <= '\U{200a}'
    || c == '\U{2028}'
    || c == '\U{2029}'
    || c == '\U{202f}'
    || c == '\U{205f}'
    || c == '\U{3000}'
  }

  /** A piece that `str.split()` can return: non-empty and free of whitespace. */
  predicate IsToken(t: string)
  {
    |t| > 0 && forall i :: 0 <= i < |t| ==> !IsSpace(t[i])
  }

  /** The length of the run of non-whitespace characters that starts `s`. */
  function TokenLength(s: string): (n: nat)
    ensures n <= |s|
    ensures forall i :: 0 <= i < n ==> !IsSpace(s[i])
    ensures n < |s| ==> IsSpace(s[n])
  {
    if s == [] || IsSpace(s[0]) then 0 else 1 + TokenLength(s[1..])
  }

  /**
   * Python's `s.split()`: the maximal runs of non-whitespace characters, in
   * order; leading, trailing and repeated whitespace produce no empty pieces.
   */
  function Split(s: string): seq<string>
    decreases |s|
  {
    if s == [] then []
    else if IsSpace(s[0]) then Split(s[1..])
    else
      var n := TokenLength(s);
      [s[..n]] + Split(s[n..])
  }

  /** Every piece of a split is a token. */
  lemma {:induction false} SplitTokens(s: string)
    ensures forall t :: t in Split(s) ==> IsToken(t)
    decreases |s|
  {
    if s != [] {
      if IsSpace(s[0]) {
        SplitTokens(s[1..]);
      } else {
        var n := TokenLength(s);
        SplitTokens(s[n..]);
        assert IsToken(s[..n]);
      }
    }
  }

  /** Python's `sep.join(parts)` for a one-character separator. */
  function Join(sep: char, parts: seq<string>): string
  {
    if parts == [] then ""
    else if |parts| == 1 then parts[0]
    else Join(sep, parts[..|parts| - 1]) + [sep] + parts[|parts| - 1]
  }

  /**
   * The lines of `s`: the pieces between its newline characters, so that a
   * text with k newlines has k + 1 lines (Python's `s.split('\n')`).
   */
  function Lines(s: string): (r: seq<string>)
    ensures |r| >= 1
  {
    if s == [] then [""]
    else
      var init := Lines(s[..|s| - 1]);
      var c := s[|s| - 1];
      if c == '\n' then init + [""]
      else ExtendLast(init, [c])
  }

  /** The lines `ls` with `y` appended to the last of them. */
  function ExtendLast(ls: seq<string>, y: string): (r: seq<string>)
    requires |ls| >= 1
    ensures |r| == |ls|
  {
    ls[..|ls| - 1] + [ls[|ls| - 1] + y]
  }

  /** Extending the last line twice extends it by both texts in turn. */
  lemma ExtendLastTwice(ls: seq<string>, a: string, b: string)
    requires |ls| >= 1
    ensures ExtendLast(ExtendLast(ls, a), b) == ExtendLast(ls, a + b)
  {
    var e := ExtendLast(ls, a);
    assert e[..|e| - 1] == ls[..|ls| - 1];
    assert (ls[|ls| - 1] + a) + b == ls[|ls| - 1] + (a + b);
  }

  /** Python's `s.rstrip(c)` for a single character `c`. */
  function RStrip(s: string, c: char): (r: string)
    ensures r <= s
    ensures r == [] || r[|r| - 1] != c
    ensures forall i :: |r| <= i < |s| ==> s[i] == c
  {
    if s != [] && s[|s| - 1] == c then RStrip(s[..|s| - 1], c) else s
  }

  /** Appending after a token boundary does not change the first token. */
  lemma {:induction false} TokenLengthAppend(a: string, b: string)
    requires TokenLength(a) < |a| || b == [] || IsSpace(b[0])
    ensures TokenLength(a + b) == TokenLength(a)
  {
    if a == [] {
      assert a + b == b;
    } else if !IsSpace(a[0]) {
      assert (a + b)[1..] == a[1..] + b;
      TokenLengthAppend(a[1..], b);
    }
  }

  /** A whitespace character splits a text into two independently split halves. */
  lemma {:induction false} SplitAtSpace(a: string, c: char, b: string)
    requires IsSpace(c)
    ensures Split(a + ([c] + b)) == Split(a) + Split(b)
    decreases |a|
  {
    var s := a + ([c] + b);
    if a == [] {
      assert s == [c] + b;
      assert s[1..] == b;
    } else if IsSpace(a[0]) {
      assert s[1..] == a[1..] + ([c] + b);
      SplitAtSpace(a[1..], c, b);
    } else {
      var n := TokenLength(a);
      TokenLengthAppend(a, [c] + b);
      assert s[..n] == a[..n];
      assert s[n..] == a[n..] + ([c] + b);
      SplitAtSpace(a[n..], c, b);
      calc {
        Split(s);
        [s[..n]] + Split(s[n..]);
        [a[..n]] + (Split(a[n..]) + Split(b));
        ([a[..n]] + Split(a[n..])) + Split(b);
      }
    }
  }

  /** A token splits to itself. */
  lemma SplitToken(t: string)
    requires IsToken(t)
    ensures Split(t) == [t]
  {
    var n := TokenLength(t);
    assert !IsSpace(t[0]);
    assert n == |t|;
    assert t[..n] == t;
    assert Split(t[n..]) == [];
  }

  /** Splitting undoes joining tokens with a whitespace separator. */
  lemma {:induction false} SplitJoin(sep: char, ts: seq<string>)
    requires IsSpace(sep)
    requires forall t :: t in ts ==> IsToken(t)
    ensures Split(Join(sep, ts)) == ts
  {
    if |ts| == 1 {
      SplitToken(ts[0]);
    } else if |ts| > 1 {
      var init, last := ts[..|ts| - 1], ts[|ts| - 1];
      SplitJoin(sep, init);
      SplitToken(last);
      SplitAtSpace(Join(sep, init), sep, last);
      assert Join(sep, ts) == Join(sep, init) + ([sep] + last);
      assert init + [last] == ts;
    }
  }

  /**
   * Joining a head text and a run of tokens with a whitespace separator and
   * splitting again yields the head's tokens followed by the run.
   */
  lemma {:induction false} SplitJoinAfterHead(sep: char, head: string, ts: seq<string>)
    requires IsSpace(sep)
    requires forall t :: t in ts ==> IsToken(t)
    ensures Split(Join(sep, [head] + ts)) == Split(head) + ts
  {
    if ts != [] {
      var parts := [head] + ts;
      var init, last := ts[..|ts| - 1], ts[|ts| - 1];
      assert init + [last] == ts;
      assert parts[..|parts| - 1] == [head] + init;
      JoinSnoc(sep, parts);
      var front := Join(sep, [head] + init);
      assert Join(sep, parts) == front + ([sep] + last);
      assert last in ts;
      assert forall t :: t in init ==> t in ts;
      SplitJoinAfterHead(sep, head, init);
      SplitToken(last);
      SplitAtSpace(front, sep, last);
      assert (Split(head) + init) + [last] == Split(head) + (init + [last]);
    }
  }

  /** A character that occurs in no part and is not the separator is not in the join. */
  lemma {:induction false} JoinAvoids(sep: char, parts: seq<string>, c: char)
    requires c != sep
    requires forall p :: p in parts ==> c !in p
    ensures c !in Join(sep, parts)
  {
    if |parts| > 1 {
      JoinAvoids(sep, parts[..|parts| - 1], c);
    }
  }

  /** Appending a character other than a newline extends the last line by it. */
  lemma LinesSnocPlain(x: string, d: char)
    requires d != '\n'
    ensures Lines(x + [d]) == ExtendLast(Lines(x), [d])
  {
    assert (x + [d])[..|x|] == x;
  }

  /** Appending a newline starts a new, empty last line. */
  lemma LinesSnocNewline(x: string)
    ensures Lines(x + ['\n']) == Lines(x) + [""]
  {
    assert (x + ['\n'])[..|x|] == x;
  }

  /** Appending newline-free text only extends the last line. */
  lemma {:induction false} LinesAppendPlain(x: string, y: string)
    requires '\n' !in y
    ensures Lines(x + y) == ExtendLast(Lines(x), y)
    decreases |y|
  {
    var lx := Lines(x);
    if y == [] {
      assert x + y == x;
      assert lx[|lx| - 1] + y == lx[|lx| - 1];
      assert lx[..|lx| - 1] + [lx[|lx| - 1]] == lx;
    } else {
      var front, d := y[..|y| - 1], y[|y| - 1];
      assert front + [d] == y;
      assert x + y == (x + front) + [d];
      assert d in y;
      assert '\n' !in front by { assert forall e :: e in front ==> e in y; }
      LinesAppendPlain(x, front);
      LinesSnocPlain(x + front, d);
      ExtendLastTwice(lx, front, [d]);
    }
  }

  /** Joining at least two parts puts the separator between the joined front and the last part. */
  lemma JoinSnoc(sep: char, parts: seq<string>)
    requires |parts| >= 2
    ensures Join(sep, parts) == Join(sep, parts[..|parts| - 1]) + [sep] + parts[|parts| - 1]
  {
  }

  /** A newline followed by newline-free text starts exactly one more line. */
  lemma LinesNewlineThen(x: string, last: string)
    requires '\n' !in last
    ensures Lines(x + ['\n'] + last) == Lines(x) + [last]
  {
    var lx := Lines(x);
    LinesSnocNewline(x);
    LinesAppendPlain(x + ['\n'], last);
    assert (lx + [""])[..|lx|] == lx;
    assert "" + last == last;
  }

  /** Splitting into lines undoes joining newline-free lines with newlines. */
  lemma {:induction false} LinesJoin(ls: seq<string>)
    requires |ls| >= 1
    requires forall l :: l in ls ==> '\n' !in l
    ensures Lines(Join('\n', ls)) == ls
  {
    if |ls| == 1 {
      LinesAppendPlain([], ls[0]);
      assert [] + ls[0] == ls[0];
    } else {
      var init, last := ls[..|ls| - 1], ls[|ls| - 1];
      LinesJoin(init);
      JoinSnoc('\n', ls);
      assert last in ls;
      LinesNewlineThen(Join('\n', init), last);
      assert init + [last] == ls;
    }
  }

  /** A text has exactly one more line than it has newline characters. */
  lemma {:induction false} LinesCount(s: string)
    ensures |Lines(s)| == multiset(s)['\n'] + 1
  {
    if s != [] {
      var init := s[..|s| - 1];
      LinesCount(init);
      assert s == init + [s[|s| - 1]];
      assert multiset(s) == multiset(init) + multiset{s[|s| - 1]};
    }
  }
}
