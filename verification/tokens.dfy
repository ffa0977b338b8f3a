/** Python 2 `str.split()` (no argument) and `str.strip()` on the byte strings
    that iterating over a text file yields. A line is a `string`; the only
    whitespace is the six ASCII characters of `IsSpace`. */
module Tokens {

  /** The characters Python 2 treats as whitespace in a byte string:
      space, tab, line feed, carriage return, vertical tab and form feed. */
  predicate IsSpace(c: char)
  {
    c == ' ' || c == '\t' || c == '\n' || c == '\r' || c == '\U{B}' || c == '\U{C}'
  }

  /** What `split()` can return as an element: a non-empty run of
      non-whitespace characters. */
  predicate IsToken(t: string)
  {
    |t| > 0 && forall i :: 0 <= i < |t| ==> !IsSpace(t[i])
  }

  /** `s.split()`: the maximal runs of non-whitespace characters of `s`, in
      order. A non-space character followed by another non-space character
      is the first character of the token that starts after it. */
  function Split(s: string): (r: seq<string>)
    ensures s != [] && !IsSpace(s[0]) ==> r != []
    decreases |s|
  {
    if s == [] then []
    else if IsSpace(s[0]) then Split(s[1..])
    else
      var rest := Split(s[1..]);
      if |s| > 1 && !IsSpace(s[1]) then [[s[0]] + rest[0]] + rest[1..]
      else [[s[0]]] + rest
  }

  /** The characters of `s` that are not whitespace, in order. */
  function RemoveSpace(s: string): string
  {
    if s == [] then []
    else (if IsSpace(s[0]) then [] else [s[0]]) + RemoveSpace(s[1..])
  }

  /** All strings of `ts` one after another. */
  function Concat(ts: seq<string>): string
  {
    if ts == [] then [] else ts[0] + Concat(ts[1..])
  }

  /** Tokens written out separated by single spaces: `" ".join(ts)`. */
  function JoinSpace(ts: seq<string>): string
  {
    if ts == [] then []
    else if |ts| == 1 then ts[0]
    else ts[0] + " " + JoinSpace(ts[1..])
  }

  /** `Concat` of a sequence that starts with `x`. */
  lemma {:induction false} ConcatCons(x: string, ys: seq<string>)
    ensures Concat([x] + ys) == x + Concat(ys)
  {
    assert ([x] + ys)[1..] == ys;
  }

  /** `split()` loses nothing but whitespace: its tokens, put back together,
      are the line with its whitespace removed. */
  lemma {:induction false} ConcatSplit(s: string)
    ensures Concat(Split(s)) == RemoveSpace(s)
    decreases |s|
  {
    if s != [] {
      ConcatSplit(s[1..]);
      var rest := Split(s[1..]);
      assert RemoveSpace(s) == (if IsSpace(s[0]) then [] else [s[0]]) + RemoveSpace(s[1..]);
      if !IsSpace(s[0]) {
        if |s| > 1 && !IsSpace(s[1]) {
          assert Split(s) == [[s[0]] + rest[0]] + rest[1..];
          ConcatCons([s[0]] + rest[0], rest[1..]);
          ConcatCons(rest[0], rest[1..]);
          assert [rest[0]] + rest[1..] == rest;
        } else {
          assert Split(s) == [[s[0]]] + rest;
          ConcatCons([s[0]], rest);
        }
      }
    }
  }

  /** Every element `split()` returns is a token. */
  lemma {:induction false} SplitTokens(s: string)
    ensures forall i :: 0 <= i < |Split(s)| ==> IsToken(Split(s)[i])
    decreases |s|
  {
    if s != [] {
      SplitTokens(s[1..]);
    }
  }

  /** Any whitespace character is dropped and ends the token before it:
      a line that starts with one splits like the rest of the line. */
  lemma {:induction false} SplitSpace(c: char, s: string)
    requires IsSpace(c)
    ensures Split([c] + s) == Split(s)
  {
    assert ([c] + s)[1..] == s;
  }

  /** A single token splits into itself. */
  lemma {:induction false} SplitToken(t: string)
    requires IsToken(t)
    ensures Split(t) == [t]
    decreases |t|
  {
    if |t| > 1 {
      SplitToken(t[1..]);
      assert [t[0]] + t[1..] == t;
    } else {
      assert t == [t[0]];
    }
  }

  /** Whitespace separates: splitting `a` followed by a string `b` that
      starts with whitespace gives the tokens of `a`, then those of `b`. */
  lemma {:induction false} SplitAppend(a: string, b: string)
    requires b != [] && IsSpace(b[0])
    ensures Split(a + b) == Split(a) + Split(b)
    decreases |a|
  {
    if a == [] {
      assert a + b == b;
    } else {
      var s := a + b;
      assert s[0] == a[0] && s[1..] == a[1..] + b;
      SplitAppend(a[1..], b);
      if IsSpace(a[0]) {
      } else if |a| > 1 && !IsSpace(a[1]) {
        assert s[1] == a[1];
        SplitAppendGlued(a, b);
      } else {
        assert s[1] == if |a| == 1 then b[0] else a[1];
        SplitAppendSingle(a, b);
      }
    }
  }

  /** Any whitespace character inside a line separates the tokens before it
      from those after it, and is itself dropped. */
  lemma {:induction false} SplitAt(a: string, c: char, b: string)
    requires IsSpace(c)
    ensures Split(a + [c] + b) == Split(a) + Split(b)
  {
    assert a + [c] + b == a + ([c] + b);
    SplitAppend(a, [c] + b);
    SplitSpace(c, b);
  }

  /** `Split` at a non-space character that is followed by another one. */
  lemma {:induction false} SplitGluedHead(s: string)
    requires |s| > 1 && !IsSpace(s[0]) && !IsSpace(s[1])
    ensures Split(s[1..]) != []
    ensures Split(s) == [[s[0]] + Split(s[1..])[0]] + Split(s[1..])[1..]
  {
  }

  /** `Split` at a non-space character that ends its token. */
  lemma {:induction false} SplitSingleHead(s: string)
    requires |s| > 0 && !IsSpace(s[0]) && (|s| == 1 || IsSpace(s[1]))
    ensures Split(s) == [[s[0]]] + Split(s[1..])
  {
  }

  /** The step of `SplitAppend` where the first character of `a` starts a
      token that goes on past it. */
  lemma {:induction false} SplitAppendGlued(a: string, b: string)
    requires |a| > 1 && !IsSpace(a[0]) && !IsSpace(a[1])
    requires Split(a[1..] + b) == Split(a[1..]) + Split(b)
    ensures Split(a + b) == Split(a) + Split(b)
  {
    var s := a + b;
    assert s[0] == a[0] && s[1] == a[1] && s[1..] == a[1..] + b;
    SplitGluedHead(s);
    SplitGluedHead(a);
    var ra, rb := Split(a[1..]), Split(b);
    var head := [a[0]] + ra[0];
    assert (ra + rb)[0] == ra[0] && (ra + rb)[1..] == ra[1..] + rb;
    assert [head] + (ra[1..] + rb) == ([head] + ra[1..]) + rb;
  }

  /** The step of `SplitAppend` where the first character of `a` is a token
      of its own. */
  lemma {:induction false} SplitAppendSingle(a: string, b: string)
    requires b != [] && IsSpace(b[0]) && |a| > 0 && !IsSpace(a[0]) && (|a| == 1 || IsSpace(a[1]))
    requires Split(a[1..] + b) == Split(a[1..]) + Split(b)
    ensures Split(a + b) == Split(a) + Split(b)
  {
    var s := a + b;
    assert s[1] == if |a| == 1 then b[0] else a[1];
    assert s[0] == a[0] && s[1..] == a[1..] + b;
    SplitSingleHead(s);
    SplitSingleHead(a);
    var ra, rb := Split(a[1..]), Split(b);
    assert [[a[0]]] + (ra + rb) == ([[a[0]]] + ra) + rb;
  }

  /** `split()` inverts `" ".join()` on tokens. */
  lemma {:induction false} SplitJoin(ts: seq<string>)
    requires forall i :: 0 <= i < |ts| ==> IsToken(ts[i])
    ensures Split(JoinSpace(ts)) == ts
    decreases |ts|
  {
    if |ts| == 1 {
      SplitToken(ts[0]);
    } else if |ts| > 1 {
      SplitJoin(ts[1..]);
      SplitToken(ts[0]);
      assert ts[0] + " " + JoinSpace(ts[1..]) == ts[0] + (" " + JoinSpace(ts[1..]));
      SplitAppend(ts[0], " " + JoinSpace(ts[1..]));
      assert Split(" " + JoinSpace(ts[1..])) == Split(JoinSpace(ts[1..])) by {
        assert (" " + JoinSpace(ts[1..]))[1..] == JoinSpace(ts[1..]);
      }
      assert [ts[0]] + ts[1..] == ts;
    }
  }

  /** A string made only of whitespace, such as a blank line, has no tokens. */
  lemma {:induction false} SplitBlank(s: string)
    requires forall i :: 0 <= i < |s| ==> IsSpace(s[i])
    ensures Split(s) == []
    decreases |s|
  {
    if s != [] {
      SplitBlank(s[1..]);
    }
  }

  /** `s.lstrip()`: `s` without its leading whitespace. */
  function StripLeft(s: string): string
    decreases |s|
  {
    if s != [] && IsSpace(s[0]) then StripLeft(s[1..]) else s
  }

  /** `s.rstrip()`: `s` without its trailing whitespace. */
  function StripRight(s: string): string
    decreases |s|
  {
    if s != [] && IsSpace(s[|s| - 1]) then StripRight(s[..|s| - 1]) else s
  }

  /** `s.strip()`: both ends stripped. */
  function Strip(s: string): (r: string)
    ensures IsToken(s) ==> r == s
  {
    StripRight(StripLeft(s))
  }

  /** `lstrip()` removes exactly the leading whitespace: what it drops is
      whitespace, and what it keeps is a suffix that does not start with
      whitespace. */
  lemma {:induction false} StripLeftSpec(s: string)
    ensures |StripLeft(s)| <= |s| && StripLeft(s) == s[|s| - |StripLeft(s)|..]
    ensures forall i :: 0 <= i < |s| - |StripLeft(s)| ==> IsSpace(s[i])
    ensures StripLeft(s) == [] || !IsSpace(StripLeft(s)[0])
    decreases |s|
  {
    if s != [] && IsSpace(s[0]) {
      StripLeftSpec(s[1..]);
    }
  }

  /** `rstrip()` removes exactly the trailing whitespace. */
  lemma {:induction false} StripRightSpec(s: string)
    ensures |StripRight(s)| <= |s| && StripRight(s) == s[..|StripRight(s)|]
    ensures forall i :: |StripRight(s)| <= i < |s| ==> IsSpace(s[i])
    ensures StripRight(s) == [] || !IsSpace(StripRight(s)[|StripRight(s)| - 1])
    decreases |s|
  {
    if s != [] && IsSpace(s[|s| - 1]) {
      StripRightSpec(s[..|s| - 1]);
    }
  }
}
