/** `stats` of data/stat.py: the number of distinct proteins and the number of
    interactions in a protein-protein-interaction edge list. The file is given
    as the sequence of its lines, each line still carrying its own line
    terminator if it had one. */
module PpiStats {
  import opened Tokens

  datatype Option<T> = None | Some(value: T)

  datatype Result<T, E> = Ok(value: T) | Err(error: E)

  /** The pair `stats` returns: `(len(proteins), len(interactions))`. */
  datatype Counts = Counts(proteins: nat, interactions: nat)

  /** The ValueError raised when a line's partners cannot be unpacked into
      `p1, p2`: the 0-based index of the line and how many tokens it had. */
  datatype StatsError = UnpackError(line: nat, found: nat)

  // ---------------------------------------------------------------------
  // partners(line)
  // ---------------------------------------------------------------------

  /** The slice `ts[:2]`. */
  function FirstTwo(ts: seq<string>): seq<string>
  {
    if |ts| <= 2 then ts else ts[..2]
  }

  /** The comprehension `[e.strip() for e in es]`. */
  function StripEach(es: seq<string>): seq<string>
  {
    if es == [] then [] else [Strip(es[0])] + StripEach(es[1..])
  }

  /** The inner `partners(line)`: the first two whitespace-separated tokens of
      the line, each stripped. */
  function Partners(line: string): seq<string>
  {
    StripEach(FirstTwo(Split(line)))
  }

  /** Stripping tokens changes none of them. */
  lemma {:induction false} StripEachTokens(es: seq<string>)
    requires forall i :: 0 <= i < |es| ==> IsToken(es[i])
    ensures StripEach(es) == es
    decreases |es|
  {
    if es != [] {
      StripEachTokens(es[1..]);
      assert [es[0]] + es[1..] == es;
    }
  }

  /** `partners` gives the first two tokens of the line, or all of them when
      there are fewer; the `strip()` leaves each as `split()` returned it. */
  lemma {:induction false} PartnersSpec(line: string)
    ensures |Partners(line)| == if |Split(line)| < 2 then |Split(line)| else 2
    ensures Partners(line) == Split(line)[..|Partners(line)|]
    ensures forall i :: 0 <= i < |Partners(line)| ==> IsToken(Partners(line)[i])
  {
    SplitTokens(line);
    var tokens := Split(line);
    assert FirstTwo(tokens) == tokens[..if |tokens| < 2 then |tokens| else 2];
    StripEachTokens(FirstTwo(tokens));
  }

  // ---------------------------------------------------------------------
  // The body of stats
  // ---------------------------------------------------------------------

  /** The list comprehension `[partners(line) for line in f]`. */
  function Interactions(lines: seq<string>): (r: seq<seq<string>>)
    ensures |r| == |lines|
  {
    if lines == [] then []
    else Interactions(lines[..|lines| - 1]) + [Partners(lines[|lines| - 1])]
  }

  /** What `Interactions` holds at each line, in terms of the line's tokens. */
  lemma {:induction false} InteractionsAt(lines: seq<string>)
    ensures |Interactions(lines)| == |lines|
    ensures forall i :: 0 <= i < |lines| ==> Interactions(lines)[i] == Partners(lines[i])
    ensures forall i :: 0 <= i < |lines| ==>
      (|Interactions(lines)[i]| == 2 <==> |Split(lines[i])| >= 2)
    ensures forall i :: 0 <= i < |lines| && |Split(lines[i])| < 2 ==>
      |Interactions(lines)[i]| == |Split(lines[i])|
    decreases |lines|
  {
    if lines != [] {
      var init := lines[..|lines| - 1];
      InteractionsAt(init);
      assert forall i :: 0 <= i < |init| ==> init[i] == lines[i];
      PartnersSpec(lines[|lines| - 1]);
    }
  }

  /** The IDs of one pair, as a set. */
  function Ids(pair: seq<string>): set<string>
  {
    set p | p in pair
  }

  /** The protein set after adding both IDs of every pair in order. */
  function ProteinSet(pairs: seq<seq<string>>): set<string>
  {
    if pairs == [] then {}
    else ProteinSet(pairs[..|pairs| - 1]) + Ids(pairs[|pairs| - 1])
  }

  /** Where unpacking `for p1,p2 in interactions` first fails, if anywhere:
      the first pair that does not hold exactly two IDs. */
  function FirstUnpackable(pairs: seq<seq<string>>): (r: Option<nat>)
    ensures r.None? <==> forall i :: 0 <= i < |pairs| ==> |pairs[i]| == 2
    ensures r.Some? ==> r.value < |pairs| && |pairs[r.value]| != 2
    ensures r.Some? ==> forall j :: 0 <= j < r.value ==> |pairs[j]| == 2
  {
    if pairs == [] then None
    else if |pairs[0]| != 2 then Some(0)
    else match FirstUnpackable(pairs[1..])
      case None => None
      case Some(k) => Some(k + 1)
  }

  /** `stats(filename)` over the lines of the file. */
  function Stats(lines: seq<string>): Result<Counts, StatsError>
  {
    var pairs := Interactions(lines);
    match FirstUnpackable(pairs)
    case Some(i) => Err(UnpackError(i, |pairs[i]|))
    case None => Ok(Counts(|ProteinSet(pairs)|, |pairs|))
  }

  /** `stats` succeeds exactly when every line has at least two tokens, and
      then counts one interaction per line; otherwise it fails at the first
      line with fewer, reporting how many it had. */
  lemma {:induction false} StatsOutcome(lines: seq<string>)
    ensures Stats(lines).Ok? <==> forall i :: 0 <= i < |lines| ==> |Split(lines[i])| >= 2
    ensures Stats(lines).Ok? ==> Stats(lines).value.interactions == |lines|
    ensures Stats(lines).Err? ==> Stats(lines).error.line < |lines|
    ensures Stats(lines).Err? ==>
      Stats(lines).error.found == |Split(lines[Stats(lines).error.line])| < 2
    ensures Stats(lines).Err? ==>
      forall j :: 0 <= j < Stats(lines).error.line ==> |Split(lines[j])| >= 2
  {
    InteractionsAt(lines);
  }

  /** The body of `stats` step by step: build the interactions, then add both
      partners of each to a set, one interaction at a time. */
  method ComputeStats(lines: seq<string>) returns (r: Result<Counts, StatsError>)
    ensures r == Stats(lines)
  {
    var interactions := Interactions(lines);
    var proteins: set<string> := {};
    var i := 0;
    while i < |interactions|
      invariant 0 <= i <= |interactions|
      invariant forall j :: 0 <= j < i ==> |interactions[j]| == 2
      invariant proteins == ProteinSet(interactions[..i])
    {
      var pair := interactions[i];
      if |pair| != 2 {
        FailsAt(lines, i);
        return Err(UnpackError(i, |pair|));
      }
      var p1, p2 := pair[0], pair[1];
      ProteinSetPair(interactions[..i], pair);
      assert interactions[..i + 1] == interactions[..i] + [pair];
      proteins := proteins + {p1};
      proteins := proteins + {p2};
      i := i + 1;
    }
    assert interactions[..i] == interactions;
    Succeeds(lines);
    return Ok(Counts(|proteins|, |interactions|));
  }

  /** `Stats` fails at the first line whose partners cannot be unpacked. */
  lemma {:induction false} FailsAt(lines: seq<string>, i: nat)
    requires i < |lines| && |Interactions(lines)[i]| != 2
    requires forall j :: 0 <= j < i ==> |Interactions(lines)[j]| == 2
    ensures Stats(lines) == Err(UnpackError(i, |Interactions(lines)[i]|))
  {
    var v := FirstUnpackable(Interactions(lines));
    assert v.Some?;
    assert v.value == i;
  }

  /** `Stats` succeeds when every line's partners can be unpacked. */
  lemma {:induction false} Succeeds(lines: seq<string>)
    requires forall j :: 0 <= j < |lines| ==> |Interactions(lines)[j]| == 2
    ensures Stats(lines) == Ok(Counts(|ProteinSet(Interactions(lines))|, |lines|))
  {
    assert FirstUnpackable(Interactions(lines)).None?;
  }

  /** What a successful `Stats` returns, in terms of the protein set. */
  lemma {:induction false} OkValue(lines: seq<string>)
    requires Stats(lines).Ok?
    ensures Stats(lines).value == Counts(|ProteinSet(Interactions(lines))|, |lines|)
  {
  }

  // ---------------------------------------------------------------------
  // The protein set
  // ---------------------------------------------------------------------

  /** Adding one more pair adds exactly its IDs to the protein set. */
  lemma {:induction false} ProteinSetSnoc(pairs: seq<seq<string>>, pair: seq<string>)
    ensures ProteinSet(pairs + [pair]) == ProteinSet(pairs) + Ids(pair)
  {
    assert (pairs + [pair])[..|pairs|] == pairs;
  }

  /** The step of the loop in `ComputeStats`: a pair `p1, p2` adds `p1` and
      `p2`. */
  lemma {:induction false} ProteinSetPair(pairs: seq<seq<string>>, pair: seq<string>)
    requires |pair| == 2
    ensures ProteinSet(pairs + [pair]) == ProteinSet(pairs) + {pair[0]} + {pair[1]}
  {
    ProteinSetSnoc(pairs, pair);
    assert Ids(pair) == {pair[0], pair[1]};
  }

  /** An ID of any pair is in the protein set. */
  lemma {:induction false} InProteinSet(pairs: seq<seq<string>>, i: nat, k: nat)
    requires i < |pairs| && k < |pairs[i]|
    ensures pairs[i][k] in ProteinSet(pairs)
    decreases |pairs|
  {
    var init := pairs[..|pairs| - 1];
    if i < |pairs| - 1 {
      assert init[i] == pairs[i];
      InProteinSet(init, i, k);
    } else {
      assert pairs[i][k] in Ids(pairs[i]);
    }
  }

  /** Every element of the protein set comes from some pair. */
  lemma {:induction false} ProteinSetSource(pairs: seq<seq<string>>, p: string) returns (i: nat, k: nat)
    requires p in ProteinSet(pairs)
    ensures i < |pairs| && k < |pairs[i]| && pairs[i][k] == p
    decreases |pairs|
  {
    var init := pairs[..|pairs| - 1];
    if p in ProteinSet(init) {
      i, k := ProteinSetSource(init, p);
      assert init[i] == pairs[i];
    } else {
      i := |pairs| - 1;
      k :| 0 <= k < |pairs[i]| && pairs[i][k] == p;
    }
  }

  /** Independent description of the proteins: every first or second column
      of every line. */
  ghost function FirstTwoColumns(lines: seq<string>): set<string>
  {
    set i, k | 0 <= i < |lines| && 0 <= k < 2 && k < |Split(lines[i])| :: Split(lines[i])[k]
  }

  /** The set `stats` builds holds exactly the first and second columns. */
  lemma {:induction false} ProteinSetIsFirstTwoColumns(lines: seq<string>)
    ensures ProteinSet(Interactions(lines)) == FirstTwoColumns(lines)
  {
    var pairs := Interactions(lines);
    InteractionsAt(lines);
    forall p | p in ProteinSet(pairs)
      ensures p in FirstTwoColumns(lines)
    {
      var i, k := ProteinSetSource(pairs, p);
      PartnersSpec(lines[i]);
      assert Split(lines[i])[k] == p;
    }
    forall p | p in FirstTwoColumns(lines)
      ensures p in ProteinSet(pairs)
    {
      var i, k :| 0 <= i < |lines| && 0 <= k < 2 && k < |Split(lines[i])| && Split(lines[i])[k] == p;
      PartnersSpec(lines[i]);
      assert pairs[i][k] == p;
      InProteinSet(pairs, i, k);
    }
  }

  /** The protein count is the number of distinct IDs in the first two
      columns, over all lines. */
  lemma {:induction false} ProteinCount(lines: seq<string>)
    requires Stats(lines).Ok?
    ensures Stats(lines).value.proteins == |FirstTwoColumns(lines)|
  {
    OkValue(lines);
    ProteinSetIsFirstTwoColumns(lines);
  }

  /** A pair contributes at most as many proteins as it holds IDs. */
  lemma {:induction false} IdsBound(pair: seq<string>)
    ensures |Ids(pair)| <= |pair|
    decreases |pair|
  {
    if pair != [] {
      var init := pair[..|pair| - 1];
      IdsBound(init);
      assert Ids(pair) == Ids(init) + {pair[|pair| - 1]};
    }
  }

  /** Each pair has at most two IDs, so the set has at most twice as many
      elements as there are pairs. */
  lemma {:induction false} ProteinSetBound(pairs: seq<seq<string>>)
    requires forall i :: 0 <= i < |pairs| ==> |pairs[i]| <= 2
    ensures |ProteinSet(pairs)| <= 2 * |pairs|
    decreases |pairs|
  {
    if pairs != [] {
      var init, last := pairs[..|pairs| - 1], pairs[|pairs| - 1];
      assert forall i :: 0 <= i < |init| ==> init[i] == pairs[i];
      ProteinSetBound(init);
      IdsBound(last);
      var known, added := ProteinSet(init), Ids(last);
      assert ProteinSet(pairs) == known + added;
      assert |known + added| + |known * added| == |known| + |added|;
    }
  }

  /** At most two new proteins per interaction. */
  lemma {:induction false} ProteinsAtMostTwiceInteractions(lines: seq<string>)
    requires Stats(lines).Ok?
    ensures Stats(lines).value.proteins <= 2 * Stats(lines).value.interactions
  {
    OkValue(lines);
    InteractionsAt(lines);
    ProteinSetBound(Interactions(lines));
  }

  // ---------------------------------------------------------------------
  // Properties of the counts
  // ---------------------------------------------------------------------

  /** An empty file has no proteins and no interactions. */
  lemma {:induction false} EmptyInput()
    ensures Stats([]) == Ok(Counts(0, 0))
  {
    assert Interactions([]) == [];
  }

  /** A file with at least one interaction has at least one protein. */
  lemma {:induction false} SomeProtein(lines: seq<string>)
    requires |lines| > 0 && Stats(lines).Ok?
    ensures Stats(lines).value.proteins >= 1
  {
    var pairs := Interactions(lines);
    OkValue(lines);
    StatsOutcome(lines);
    InteractionsAt(lines);
    InProteinSet(pairs, 0, 0);
  }

  /** The interactions of a file with one more line at the end. */
  lemma {:induction false} InteractionsSnoc(lines: seq<string>, line: string)
    ensures Interactions(lines + [line]) == Interactions(lines) + [Partners(line)]
  {
    assert (lines + [line])[..|lines|] == lines;
  }

  /** The protein set of a file with one more line with two tokens. */
  lemma {:induction false} ProteinsAfterLine(lines: seq<string>, line: string)
    requires |Split(line)| >= 2
    ensures ProteinSet(Interactions(lines + [line]))
         == ProteinSet(Interactions(lines)) + {Split(line)[0], Split(line)[1]}
  {
    var pairs, pair := Interactions(lines), Partners(line);
    InteractionsSnoc(lines, line);
    PartnersSpec(line);
    assert pair[0] == Split(line)[0] && pair[1] == Split(line)[1];
    ProteinSetPair(pairs, pair);
    var known := ProteinSet(pairs);
    assert known + {pair[0]} + {pair[1]} == known + {Split(line)[0], Split(line)[1]};
  }

  /** Appending a line with two tokens adds one interaction and those of its
      two IDs that were not yet seen. */
  lemma {:induction false} AppendLine(lines: seq<string>, line: string)
    requires Stats(lines).Ok? && |Split(line)| >= 2
    ensures Stats(lines + [line]).Ok?
    ensures Stats(lines + [line]).value.interactions == Stats(lines).value.interactions + 1
    ensures Stats(lines + [line]).value.proteins
         == |ProteinSet(Interactions(lines)) + {Split(line)[0], Split(line)[1]}|
  {
    var more := lines + [line];
    StatsOutcome(lines);
    forall i | 0 <= i < |more|
      ensures |Split(more[i])| >= 2
    {
      if i < |lines| {
        assert more[i] == lines[i];
      }
    }
    StatsOutcome(more);
    OkValue(lines);
    OkValue(more);
    ProteinsAfterLine(lines, line);
  }

  /** A self-interaction (both tokens equal) adds one interaction and at
      most one protein: exactly one when that ID is new. */
  lemma {:induction false} SelfInteraction(lines: seq<string>, line: string)
    requires Stats(lines).Ok? && |Split(line)| >= 2 && Split(line)[0] == Split(line)[1]
    ensures Stats(lines + [line]).Ok?
    ensures Stats(lines + [line]).value.interactions == Stats(lines).value.interactions + 1
    ensures Stats(lines + [line]).value.proteins
         == Stats(lines).value.proteins + (if Split(line)[0] in FirstTwoColumns(lines) then 0 else 1)
  {
    AppendLine(lines, line);
    OkValue(lines);
    ProteinSetIsFirstTwoColumns(lines);
    var known := ProteinSet(Interactions(lines));
    var id := Split(line)[0];
    assert {id, Split(line)[1]} == {id};
    if id !in known {
      assert |known + {id}| == |known| + 1;
    } else {
      assert known + {id} == known;
    }
  }

  /** Both partners of a line with two tokens are in the protein set. */
  lemma {:induction false} PartnersInProteinSet(lines: seq<string>, i: nat)
    requires i < |lines| && |Split(lines[i])| >= 2
    ensures Split(lines[i])[0] in ProteinSet(Interactions(lines))
    ensures Split(lines[i])[1] in ProteinSet(Interactions(lines))
  {
    var pairs := Interactions(lines);
    InteractionsAt(lines);
    PartnersSpec(lines[i]);
    InProteinSet(pairs, i, 0);
    InProteinSet(pairs, i, 1);
  }

  /** Repeating a line already in the file adds an interaction but no
      protein. */
  lemma {:induction false} DuplicateLine(lines: seq<string>, line: string)
    requires Stats(lines).Ok? && line in lines
    ensures Stats(lines + [line])
         == Ok(Counts(Stats(lines).value.proteins, Stats(lines).value.interactions + 1))
  {
    var i :| 0 <= i < |lines| && lines[i] == line;
    StatsOutcome(lines);
    assert |Split(line)| >= 2;
    AppendLine(lines, line);
    OkValue(lines);
    PartnersInProteinSet(lines, i);
    var known := ProteinSet(Interactions(lines));
    assert known + {Split(line)[0], Split(line)[1]} == known;
  }

  /** A protein is in the set exactly when it is a partner on some line. */
  lemma {:induction false} ProteinSetMembers(lines: seq<string>, p: string)
    ensures p in ProteinSet(Interactions(lines)) <==> exists line :: line in lines && p in Partners(line)
  {
    var pairs := Interactions(lines);
    InteractionsAt(lines);
    if p in ProteinSet(pairs) {
      var i, k := ProteinSetSource(pairs, p);
      assert lines[i] in lines && p in Partners(lines[i]);
    }
    if line :| line in lines && p in Partners(line) {
      var i :| 0 <= i < |lines| && lines[i] == line;
      var k :| 0 <= k < |Partners(line)| && Partners(line)[k] == p;
      InProteinSet(pairs, i, k);
    }
  }

  /** Two files with the same lines, in any order and any number of times,
      have the same protein set. */
  lemma {:induction false} SameLinesSameProteins(a: seq<string>, b: seq<string>)
    requires forall line :: line in a <==> line in b
    ensures ProteinSet(Interactions(a)) == ProteinSet(Interactions(b))
  {
    forall p
      ensures p in ProteinSet(Interactions(a)) <==> p in ProteinSet(Interactions(b))
    {
      ProteinSetMembers(a, p);
      ProteinSetMembers(b, p);
    }
  }

  /** The order of the lines does not matter: a permutation of the file
      fails exactly when the file does and otherwise gives the same counts. */
  lemma {:induction false} Permutation(lines: seq<string>, shuffled: seq<string>)
    requires multiset(lines) == multiset(shuffled)
    ensures Stats(lines).Ok? <==> Stats(shuffled).Ok?
    ensures Stats(lines).Ok? ==> Stats(lines) == Stats(shuffled)
  {
    assert |lines| == |multiset(lines)| == |shuffled|;
    forall line
      ensures line in lines <==> line in shuffled
    {
      assert line in lines <==> line in multiset(lines);
      assert line in shuffled <==> line in multiset(shuffled);
    }
    StatsOutcome(lines);
    StatsOutcome(shuffled);
    assert (forall i :: 0 <= i < |lines| ==> |Split(lines[i])| >= 2)
       <==> (forall i :: 0 <= i < |shuffled| ==> |Split(shuffled[i])| >= 2)
    by {
      forall i | 0 <= i < |shuffled|
        ensures exists j :: 0 <= j < |lines| && lines[j] == shuffled[i]
      {
        assert shuffled[i] in lines;
      }
      forall i | 0 <= i < |lines|
        ensures exists j :: 0 <= j < |shuffled| && shuffled[j] == lines[i]
      {
        assert lines[i] in shuffled;
      }
    }
    if Stats(lines).Ok? {
      SameLinesSameProteins(lines, shuffled);
      OkValue(lines);
      OkValue(shuffled);
    }
  }

  /** Columns after the second are ignored: appending text that starts with
      whitespace to a line with two tokens leaves its partners unchanged. */
  lemma {:induction false} ExtraColumns(line: string, extra: string)
    requires |Split(line)| >= 2 && extra != [] && IsSpace(extra[0])
    ensures Partners(line + extra) == Partners(line)
  {
    SplitAppend(line, extra);
    var ts, more := Split(line), Split(extra);
    assert FirstTwo(ts + more) == ts[..2] == FirstTwo(ts);
  }

  /** Adding columns to any line of a file that `stats` accepts changes
      neither count. */
  lemma {:induction false} ExtraColumnsInFile(lines: seq<string>, i: nat, extra: string)
    requires Stats(lines).Ok? && i < |lines| && extra != [] && IsSpace(extra[0])
    ensures Stats(lines[i := lines[i] + extra]) == Stats(lines)
  {
    StatsOutcome(lines);
    ExtraColumns(lines[i], extra);
    var wider := lines[i := lines[i] + extra];
    InteractionsAt(lines);
    InteractionsAt(wider);
    assert forall j :: 0 <= j < |lines| ==> Interactions(wider)[j] == Interactions(lines)[j];
    assert Interactions(wider) == Interactions(lines);
  }

  /** A blank line, or one made only of whitespace, makes `stats` fail there
      (or at an earlier short line) with no tokens to unpack. */
  lemma {:induction false} BlankLineFails(lines: seq<string>, i: nat)
    requires i < |lines| && forall k :: 0 <= k < |lines[i]| ==> IsSpace(lines[i][k])
    ensures Stats(lines).Err? && Stats(lines).error.line <= i
    ensures Stats(lines).error.line == i ==> Stats(lines).error.found == 0
  {
    SplitBlank(lines[i]);
    StatsOutcome(lines);
  }
}
