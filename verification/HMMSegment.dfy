/** Boost_Searcher/cppjieba/HMMSegment.hpp and HMMModel.hpp: Viterbi decoding of a rune range into
    the states B, E, M and S, and the cut that follows from it. Doubles are reals; the clamp at
    `MIN_DOUBLE` is kept. */
module HMMSegment {
  import opened Unicode
  import opened DictTrie

  /** The states are B, E, M and S, in this order; only E and S can be the last of a word. */
  const E: nat := 1
  const S: nat := 3
  const STATUS_SUM: nat := 4

  type State = s: nat | s < 4

  datatype HMMModel = HMMModel(startProb: seq<real>, transProb: seq<seq<real>>, emitProbVec: seq<map<Rune, real>>) {
    predicate WellFormed() {
      |startProb| == STATUS_SUM && |transProb| == STATUS_SUM && |emitProbVec| == STATUS_SUM
      && forall y :: 0 <= y < STATUS_SUM ==> |transProb[y]| == STATUS_SUM
    }

    function GetEmitProb(y: State, key: Rune): real
      requires WellFormed()
    {
      if key in emitProbVec[y] then emitProbVec[y][key] else MIN_DOUBLE
    }
  }

  // ---------------------------------------------------------------- the table

  datatype Cell = Cell(path: int, weight: real)

  /** The table entry for rune `x` in state `y`. */
  function CellAt(m: HMMModel, t: seq<Rune>, x: nat, y: State): Cell
    requires m.WellFormed() && x < |t|
    decreases x, STATUS_SUM + 1
  {
    if x == 0 then Cell(-1, m.startProb[y] + m.GetEmitProb(y, t[0]))
    else Scan(m, t, x, y, STATUS_SUM)
  }

  /** The entry after its first `k` predecessors: the clamp and the state E to begin with. */
  function Scan(m: HMMModel, t: seq<Rune>, x: nat, y: State, k: nat): Cell
    requires m.WellFormed() && 0 < x < |t| && k <= STATUS_SUM
    decreases x, k
  {
    if k == 0 then Cell(E, MIN_DOUBLE)
    else
      var c := Scan(m, t, x, y, k - 1);
      var tmp := Via(m, t, x, y, k - 1);
      if tmp > c.weight then Cell(k - 1, tmp) else c
  }

  /** The weight of the entry if its predecessor is in state `pre`. */
  function Via(m: HMMModel, t: seq<Rune>, x: nat, y: State, pre: State): real
    requires m.WellFormed() && 0 < x < |t|
    decreases x, pre
  {
    CellAt(m, t, x - 1, pre).weight + m.transProb[pre][y] + m.GetEmitProb(y, t[x])
  }

  lemma {:induction false} ScanIsMaximum(m: HMMModel, t: seq<Rune>, x: nat, y: State, k: nat)
    requires m.WellFormed() && 0 < x < |t| && k <= STATUS_SUM
    ensures var c := Scan(m, t, x, y, k);
            && 0 <= c.path < STATUS_SUM
            && c.weight >= MIN_DOUBLE
            && (forall pre: State :: pre < k ==> c.weight >= Via(m, t, x, y, pre))
            && (if c.weight > MIN_DOUBLE then c.weight == Via(m, t, x, y, c.path) else c.path == E)
  {
    if k > 0 {
      ScanIsMaximum(m, t, x, y, k - 1);
    }
  }

  lemma CellIsClampedMaximum(m: HMMModel, t: seq<Rune>, x: nat, y: State)
    requires m.WellFormed() && 0 < x < |t|
    ensures var c := CellAt(m, t, x, y);
            && 0 <= c.path < STATUS_SUM
            && c.weight >= MIN_DOUBLE
            && (forall pre: State :: c.weight >= Via(m, t, x, y, pre))
            && (if c.weight > MIN_DOUBLE then c.weight == Via(m, t, x, y, c.path) else c.path == E)
  {
    ScanIsMaximum(m, t, x, y, STATUS_SUM);
  }

  lemma {:induction false} ScanTakesFirst(m: HMMModel, t: seq<Rune>, x: nat, y: State, k: nat)
    requires m.WellFormed() && 0 < x < |t| && k <= STATUS_SUM
    ensures var c := Scan(m, t, x, y, k);
            c.weight > MIN_DOUBLE ==> 0 <= c.path < k && forall pre: State :: pre < c.path ==> Via(m, t, x, y, pre) < c.weight
  {
    if k > 0 {
      ScanTakesFirst(m, t, x, y, k - 1);
      ScanIsMaximum(m, t, x, y, k - 1);
    }
  }

  /** Of equally good predecessors the first is recorded. */
  lemma FirstPredecessorWins(m: HMMModel, t: seq<Rune>, x: nat, y: State, pre: State)
    requires m.WellFormed() && 0 < x < |t|
    ensures var c := CellAt(m, t, x, y);
            c.weight > MIN_DOUBLE && pre < c.path ==> Via(m, t, x, y, pre) < c.weight
  {
    hide Via;
    ScanTakesFirst(m, t, x, y, STATUS_SUM);
  }

  // ---------------------------------------------------------------- reading the table back

  /** The final state: E unless S is strictly better. */
  function LastState(m: HMMModel, t: seq<Rune>): State
    requires m.WellFormed() && t != []
  {
    if CellAt(m, t, |t| - 1, E).weight >= CellAt(m, t, |t| - 1, S).weight then E else S
  }

  /** The states of the first `x + 1` runes, following the paths back from state `y` at rune `x`. */
  function Back(m: HMMModel, t: seq<Rune>, x: nat, y: State): (ss: seq<State>)
    requires m.WellFormed() && x < |t|
    ensures |ss| == x + 1 && ss[x] == y
  {
    if x == 0 then [y]
    else
      CellIsClampedMaximum(m, t, x, y);
      Back(m, t, x - 1, CellAt(m, t, x, y).path) + [y]
  }

  function Status(m: HMMModel, t: seq<Rune>): (ss: seq<State>)
    requires m.WellFormed() && t != []
    ensures |ss| == |t|
    ensures ss[|ss| - 1] == E || ss[|ss| - 1] == S
  {
    Back(m, t, |t| - 1, LastState(m, t))
  }

  // ---------------------------------------------------------------- optimality

  /** The log-probability of the first runes of `t` being emitted by the states `ss`. */
  function Score(m: HMMModel, t: seq<Rune>, ss: seq<State>): real
    requires m.WellFormed() && 0 < |ss| <= |t|
  {
    var n := |ss| - 1;
    if n == 0 then m.startProb[ss[0]] + m.GetEmitProb(ss[0], t[0])
    else Score(m, t, ss[..n]) + m.transProb[ss[n - 1]][ss[n]] + m.GetEmitProb(ss[n], t[n])
  }

  /** A state sequence that may end a word at the last rune. */
  predicate Ends(ss: seq<State>, n: nat) {
    n > 0 && |ss| == n && (ss[n - 1] == E || ss[n - 1] == S)
  }

  ghost predicate IsBestPath(m: HMMModel, t: seq<Rune>, ss: seq<State>)
    requires m.WellFormed() && t != []
  {
    Ends(ss, |t|) && forall other :: Ends(other, |t|) ==> Score(m, t, other) <= Score(m, t, ss)
  }

  /** Clamping only raises the table: no sequence scores more than its last entry. */
  lemma {:induction false} TableIsUpperBound(m: HMMModel, t: seq<Rune>, ss: seq<State>)
    requires m.WellFormed() && 0 < |ss| <= |t|
    ensures Score(m, t, ss) <= CellAt(m, t, |ss| - 1, ss[|ss| - 1]).weight
    decreases |ss|
  {
    var n := |ss| - 1;
    if n > 0 {
      TableIsUpperBound(m, t, ss[..n]);
      CellIsClampedMaximum(m, t, n, ss[n]);
      assert CellAt(m, t, n, ss[n]).weight >= Via(m, t, n, ss[n], ss[n - 1]);
    }
  }

  /** No entry on the way was clamped. */
  ghost predicate Unclamped(m: HMMModel, t: seq<Rune>, ss: seq<State>)
    requires m.WellFormed()
  {
    |ss| <= |t| && forall x :: 0 < x < |ss| ==> CellAt(m, t, x, ss[x]).weight > MIN_DOUBLE
  }

  lemma {:induction false} BackAttainsTable(m: HMMModel, t: seq<Rune>, x: nat, y: State)
    requires m.WellFormed() && x < |t| && Unclamped(m, t, Back(m, t, x, y))
    ensures Score(m, t, Back(m, t, x, y)) == CellAt(m, t, x, y).weight
  {
    hide Unclamped, Back, Score, CellAt;
    if x == 0 {
      BackBegins(m, t, y);
    } else {
      BackSteps(m, t, x, y);
      CellIsClampedMaximum(m, t, x, y);
      var pre := CellAt(m, t, x, y).path;
      var rest := Back(m, t, x - 1, pre);
      UnclampedTail(m, t, rest, y);
      BackAttainsTable(m, t, x - 1, pre);
      ScoreSnoc(m, t, rest, y);
    }
  }

  lemma BackBegins(m: HMMModel, t: seq<Rune>, y: State)
    requires m.WellFormed() && t != []
    ensures Back(m, t, 0, y) == [y] && Score(m, t, [y]) == CellAt(m, t, 0, y).weight
  {
  }

  lemma BackSteps(m: HMMModel, t: seq<Rune>, x: nat, y: State)
    requires m.WellFormed() && 0 < x < |t|
    ensures 0 <= CellAt(m, t, x, y).path < STATUS_SUM
    ensures Back(m, t, x, y) == Back(m, t, x - 1, CellAt(m, t, x, y).path) + [y]
  {
    hide CellAt;
    CellIsClampedMaximum(m, t, x, y);
  }

  lemma ScoreSnoc(m: HMMModel, t: seq<Rune>, ss: seq<State>, y: State)
    requires m.WellFormed() && 0 < |ss| < |t|
    ensures Score(m, t, ss + [y]) == Score(m, t, ss) + m.transProb[ss[|ss| - 1]][y] + m.GetEmitProb(y, t[|ss|])
  {
    assert (ss + [y])[..|ss|] == ss;
  }

  lemma UnclampedTail(m: HMMModel, t: seq<Rune>, ss: seq<State>, y: State)
    requires m.WellFormed() && ss != [] && Unclamped(m, t, ss + [y])
    ensures Unclamped(m, t, ss) && CellAt(m, t, |ss|, y).weight > MIN_DOUBLE
  {
    hide CellAt;
    var longer := ss + [y];
    assert CellAt(m, t, |ss|, longer[|ss|]).weight > MIN_DOUBLE;
    assert forall k :: 0 < k < |ss| ==> longer[k] == ss[k];
  }

  /** Whatever the model, a state sequence read off unclamped entries is one of highest score. */
  lemma StatusIsBest(m: HMMModel, t: seq<Rune>)
    requires m.WellFormed() && t != [] && Unclamped(m, t, Status(m, t))
    ensures IsBestPath(m, t, Status(m, t))
  {
    hide Score, CellAt, Unclamped, Back;
    BackAttainsTable(m, t, |t| - 1, LastState(m, t));
    forall other | Ends(other, |t|)
      ensures Score(m, t, other) <= FinalWeight(m, t)
    {
      FinalWeightIsUpperBound(m, t, other);
    }
  }

  /** The weight the decoder sees for its result. */
  function FinalWeight(m: HMMModel, t: seq<Rune>): real
    requires m.WellFormed() && t != []
  {
    CellAt(m, t, |t| - 1, LastState(m, t)).weight
  }

  lemma FinalWeightIsUpperBound(m: HMMModel, t: seq<Rune>, ss: seq<State>)
    requires m.WellFormed() && Ends(ss, |t|)
    ensures Score(m, t, ss) <= FinalWeight(m, t)
  {
    hide Score, CellAt;
    TableIsUpperBound(m, t, ss);
  }

  /** Some predecessor lifts the entry above the clamp. */
  ghost predicate IsLifted(m: HMMModel, t: seq<Rune>, x: nat, y: State)
    requires m.WellFormed() && 0 < x < |t|
  {
    exists pre: State :: Via(m, t, x, y, pre) > MIN_DOUBLE
  }

  /** If every entry has a predecessor that lifts it above the clamp, the result is optimal. */
  lemma LivelyTableGivesBestPath(m: HMMModel, t: seq<Rune>)
    requires m.WellFormed() && t != []
    requires forall x: nat, y: State :: 0 < x < |t| ==> IsLifted(m, t, x, y)
    ensures IsBestPath(m, t, Status(m, t))
  {
    hide Score, CellAt, Back, Via, Status;
    var ss := Status(m, t);
    forall x | 0 < x < |ss|
      ensures CellAt(m, t, x, ss[x]).weight > MIN_DOUBLE
    {
      CellIsClampedMaximum(m, t, x, ss[x]);
      assert IsLifted(m, t, x, ss[x]);
      var pre: State :| Via(m, t, x, ss[x], pre) > MIN_DOUBLE;
    }
    StatusIsBest(m, t);
  }

  /** Transitions and emissions are logarithms of probabilities. */
  ghost predicate LogProbabilities(m: HMMModel) {
    && m.WellFormed()
    && (forall y, z :: 0 <= y < STATUS_SUM && 0 <= z < STATUS_SUM ==> m.transProb[y][z] <= 0.0)
    && (forall y: State, r :: r in m.emitProbVec[y] ==> m.emitProbVec[y][r] <= 0.0)
  }

  lemma {:induction false} WeightsFallAlongPath(m: HMMModel, t: seq<Rune>, x: nat, y: State)
    requires LogProbabilities(m) && x < |t|
    requires x == 0 || CellAt(m, t, x, y).weight > MIN_DOUBLE
    ensures Unclamped(m, t, Back(m, t, x, y))
  {
    if x > 0 {
      CellIsClampedMaximum(m, t, x, y);
      var c := CellAt(m, t, x, y);
      var ss := Back(m, t, x, y);
      var rest := Back(m, t, x - 1, c.path);
      assert m.GetEmitProb(y, t[x]) <= 0.0;
      assert CellAt(m, t, x - 1, c.path).weight >= c.weight;
      WeightsFallAlongPath(m, t, x - 1, c.path);
      forall k | 0 < k < |ss|
        ensures CellAt(m, t, k, ss[k]).weight > MIN_DOUBLE
      {
        if k < x {
          assert ss[k] == rest[k];
        }
      }
    }
  }

  /** With log-probabilities, one good sequence is enough: if any sequence scores above the clamp,
      the decoded one is of highest score, however many entries were clamped. */
  lemma ReachableScoreGivesBestPath(m: HMMModel, t: seq<Rune>, good: seq<State>)
    requires LogProbabilities(m) && Ends(good, |t|) && Score(m, t, good) > MIN_DOUBLE
    ensures IsBestPath(m, t, Status(m, t))
  {
    TableIsUpperBound(m, t, good);
    WeightsFallAlongPath(m, t, |t| - 1, LastState(m, t));
    StatusIsBest(m, t);
  }

  ghost predicate IsExact(m: HMMModel, t: seq<Rune>)
    requires m.WellFormed() && t != []
  {
    exists ss :: IsBestPath(m, t, ss) && Score(m, t, ss) == FinalWeight(m, t)
  }

  /** With log-probabilities and at least two runes, the final weight is the true maximum
      if and only if some sequence scores at least the clamp. */
  lemma FinalWeightIsExactExactly(m: HMMModel, t: seq<Rune>)
    requires LogProbabilities(m) && |t| >= 2
    ensures IsExact(m, t) <==> exists ss :: Ends(ss, |t|) && Score(m, t, ss) >= -3.14e100
  {
    hide Score, CellAt, Back, LastState;
    if IsExact(m, t) {
      var ss :| IsBestPath(m, t, ss) && Score(m, t, ss) == FinalWeight(m, t);
      CellIsClampedMaximum(m, t, |t| - 1, LastState(m, t));
    }
    if ss :| Ends(ss, |t|) && Score(m, t, ss) >= MIN_DOUBLE {
      ReachedClampIsExact(m, t, ss);
    }
  }

  lemma AttainingIsBest(m: HMMModel, t: seq<Rune>, ss: seq<State>)
    requires m.WellFormed() && Ends(ss, |t|) && Score(m, t, ss) == FinalWeight(m, t)
    ensures IsBestPath(m, t, ss)
  {
    hide Score, FinalWeight;
    forall other | Ends(other, |t|)
      ensures Score(m, t, other) <= FinalWeight(m, t)
    {
      FinalWeightIsUpperBound(m, t, other);
    }
  }

  lemma ReachedClampIsExact(m: HMMModel, t: seq<Rune>, ss: seq<State>)
    requires LogProbabilities(m) && |t| >= 2
    requires Ends(ss, |t|) && Score(m, t, ss) >= MIN_DOUBLE
    ensures IsExact(m, t)
  {
    hide Score, CellAt, Back, LastState, IsBestPath;
    FinalWeightIsUpperBound(m, t, ss);
    if FinalWeight(m, t) > MIN_DOUBLE {
      WeightsFallAlongPath(m, t, |t| - 1, LastState(m, t));
      BackAttainsTable(m, t, |t| - 1, LastState(m, t));
      AttainingIsBest(m, t, Status(m, t));
    } else {
      AttainingIsBest(m, t, ss);
    }
  }

  // ---------------------------------------------------------------- runes that no state emits

  predicate IsUnknown(m: HMMModel, r: Rune)
    requires m.WellFormed()
  {
    forall y: State :: r !in m.emitProbVec[y]
  }

  /** The start probabilities are logarithms as well. */
  ghost predicate AllLogProbabilities(m: HMMModel) {
    LogProbabilities(m) && forall y :: 0 <= y < STATUS_SUM ==> m.startProb[y] <= 0.0
  }

  lemma {:induction false} CellIsNoProbabilityAboveOne(m: HMMModel, t: seq<Rune>, x: nat, y: State)
    requires AllLogProbabilities(m) && x < |t|
    ensures CellAt(m, t, x, y).weight <= 0.0
  {
    assert m.GetEmitProb(y, t[x]) <= 0.0;
    if x > 0 {
      CellIsClampedMaximum(m, t, x, y);
      CellIsNoProbabilityAboveOne(m, t, x - 1, CellAt(m, t, x, y).path);
    }
  }

  /** From an unknown rune on, every entry is the clamp, with E as its predecessor. */
  lemma {:induction false} UnknownRuneClampsTheRest(m: HMMModel, t: seq<Rune>, u: nat, x: nat, y: State)
    requires AllLogProbabilities(m) && 0 < u <= x < |t| && IsUnknown(m, t[u])
    ensures CellAt(m, t, x, y) == Cell(E, MIN_DOUBLE)
    decreases x
  {
    hide CellAt;
    CellIsClampedMaximum(m, t, x, y);
    var pre := CellAt(m, t, x, y).path;
    assert m.GetEmitProb(y, t[x]) <= 0.0;
    if x == u {
      CellIsNoProbabilityAboveOne(m, t, x - 1, pre);
      assert m.GetEmitProb(y, t[x]) == MIN_DOUBLE;
    } else {
      UnknownRuneClampsTheRest(m, t, u, x - 1, pre);
    }
    assert Via(m, t, x, y, pre) <= MIN_DOUBLE;
  }

  lemma {:induction false} BackFallsOnE(m: HMMModel, t: seq<Rune>, u: nat, x: nat, y: State, k: nat)
    requires AllLogProbabilities(m) && 0 < u <= x < |t| && IsUnknown(m, t[u]) && u - 1 <= k < x
    ensures Back(m, t, x, y)[k] == E
    decreases x
  {
    hide CellAt, Back;
    UnknownRuneClampsTheRest(m, t, u, x, y);
    BackSteps(m, t, x, y);
    if k < x - 1 {
      BackFallsOnE(m, t, u, x - 1, E, k);
    }
  }

  /** From the rune before an unknown one to the end every decoded state is E, whatever the model knows of the others. */
  lemma UnknownRuneForcesE(m: HMMModel, t: seq<Rune>, u: nat)
    requires AllLogProbabilities(m) && 0 < u < |t| && IsUnknown(m, t[u])
    ensures forall x :: u - 1 <= x < |t| ==> Status(m, t)[x] == E
  {
    var last := |t| - 1;
    UnknownRuneClampsTheRest(m, t, u, last, E);
    UnknownRuneClampsTheRest(m, t, u, last, S);
    hide CellAt, Back;
    forall x | u - 1 <= x < last
      ensures Status(m, t)[x] == E
    {
      BackFallsOnE(m, t, u, last, E, x);
    }
  }

  /** The start and transition weights of Boost_Searcher/dict/hmm_model.utf8, in which what is impossible weighs
      `MIN_DOUBLE`, with a single known rune. */
  const ONE_RUNE: map<Rune, real> := map[1 := -5.0]
  const FORGETFUL: HMMModel := HMMModel(
    [-0.26268660809250016, MIN_DOUBLE, MIN_DOUBLE, -1.4652633398537678],
    [[MIN_DOUBLE, -0.510825623765990, -0.916290731874155, MIN_DOUBLE],
     [-0.5897149736854513, MIN_DOUBLE, MIN_DOUBLE, -0.8085250474669937],
     [MIN_DOUBLE, -0.33344856811948514, -1.2603623820268226, MIN_DOUBLE],
     [-0.7211965654669841, MIN_DOUBLE, MIN_DOUBLE, -0.6658631448798212]],
    [ONE_RUNE, ONE_RUNE, ONE_RUNE, ONE_RUNE])

  lemma ForgottenEntry(y: State)
    ensures CellAt(FORGETFUL, [1, 2], 1, y) == Cell(E, MIN_DOUBLE)
  {
    var m, t := FORGETFUL, [1, 2];
    assert m.GetEmitProb(y, t[1]) == MIN_DOUBLE;
    assert forall pre: State :: Via(m, t, 1, y, pre) < MIN_DOUBLE;
    hide Via;
    assert Scan(m, t, 1, y, 1) == Cell(E, MIN_DOUBLE);
    assert Scan(m, t, 1, y, 2) == Cell(E, MIN_DOUBLE);
    assert Scan(m, t, 1, y, 3) == Cell(E, MIN_DOUBLE);
  }

  /** A rune that no state emits clamps its whole column, and the decoder falls back on E, E: impossible twice over,
      while S, S scores higher by more than 3e100, which double precision tells apart as well. */
  lemma UnknownRuneLosesTheBestPath()
    ensures AllLogProbabilities(FORGETFUL)
    ensures Status(FORGETFUL, [1, 2]) == [E, E]
    ensures !IsBestPath(FORGETFUL, [1, 2], Status(FORGETFUL, [1, 2]))
    ensures Score(FORGETFUL, [1, 2], [E, E]) < Score(FORGETFUL, [1, 2], [S, S]) - 3.14e100
  {
    var m := FORGETFUL;
    var t: seq<Rune> := [1, 2];
    ForgottenEntry(E);
    ForgottenEntry(S);
    hide CellAt;
    assert LastState(m, t) == E;
    assert Back(m, t, 0, E) == [E] && Back(m, t, 1, E) == [E] + [E];
    assert Status(m, t) == [E, E];
    var better: seq<State> := [S, S];
    assert better[..1] == [S] && [E, E][..1] == [E];
    assert Ends(better, 2) && Score(m, t, better) == -1.4652633398537678 - 5.0 - 0.6658631448798212 + MIN_DOUBLE;
    assert Score(m, t, [E, E]) == MIN_DOUBLE - 5.0 + MIN_DOUBLE + MIN_DOUBLE;
  }

  /** The runes U+676D and U+7814 with their emissions in Boost_Searcher/dict/hmm_model.utf8. */
  const HANGYAN: HMMModel := FORGETFUL.(emitProbVec := [
    map[0x676d := -8.514817, 0x7814 := -6.454286], map[0x676d := -11.538424, 0x7814 := -8.507894],
    map[0x676d := -9.853229, 0x7814 := -8.275346], map[0x676d := -10.061326, 0x7814 := -10.710872]])

  lemma HangyanFirst(y: State)
    ensures CellAt(HANGYAN, [0x676d, 0x7814], 0, y).weight ==
            if y == 0 then -8.77750360809250016 else if y == 1 then -11.538424 + MIN_DOUBLE
            else if y == 2 then -9.853229 + MIN_DOUBLE else -11.5265893398537678
  {
  }

  lemma HangyanSecond(y: State)
    requires y == E || y == S
    ensures CellAt(HANGYAN, [0x676d, 0x7814], 1, y) ==
            if y == E then Cell(0, -17.79622323185849016) else Cell(S, -22.903324484733589)
  {
    var m, t := HANGYAN, [0x676d, 0x7814];
    HangyanFirst(0);
    HangyanFirst(1);
    HangyanFirst(2);
    HangyanFirst(3);
    hide CellAt;
    assert m.GetEmitProb(y, t[1]) == if y == E then -8.507894 else -10.710872;
    HangyanScan(y);
    CellIsScan(m, t, 1, y);
  }

  lemma CellIsScan(m: HMMModel, t: seq<Rune>, x: nat, y: State)
    requires m.WellFormed() && 0 < x < |t|
    ensures CellAt(m, t, x, y) == Scan(m, t, x, y, STATUS_SUM)
  {
    hide Scan;
  }

  lemma HangyanScan(y: State)
    requires y == E || y == S
    ensures Scan(HANGYAN, [0x676d, 0x7814], 1, y, STATUS_SUM) ==
            if y == E then Cell(0, -17.79622323185849016) else Cell(S, -22.903324484733589)
  {
    var m, t := HANGYAN, [0x676d, 0x7814];
    HangyanFirst(0);
    HangyanFirst(1);
    HangyanFirst(2);
    HangyanFirst(3);
    hide CellAt;
    assert Via(m, t, 1, y, 0) == if y == E then -17.79622323185849016 else -8.77750360809250016 + MIN_DOUBLE - 10.710872;
    assert Via(m, t, 1, y, 1) < MIN_DOUBLE && Via(m, t, 1, y, 2) < MIN_DOUBLE;
    assert Via(m, t, 1, y, 3) == if y == S then -22.903324484733589 else -11.5265893398537678 + MIN_DOUBLE - 8.507894;
    hide Via;
    assert Scan(m, t, 1, y, 1) == if y == E then Cell(0, Via(m, t, 1, y, 0)) else Cell(E, MIN_DOUBLE);
    assert Scan(m, t, 1, y, 2) == Scan(m, t, 1, y, 1);
    assert Scan(m, t, 1, y, 3) == Scan(m, t, 1, y, 2);
  }

  /** With the weights of the shipped model these two runes, which no dictionary word joins, are one word: the states are
      B and E, and their log-probability is this number. */
  lemma HangyanIsOneWord()
    ensures HANGYAN.WellFormed() && Status(HANGYAN, [0x676d, 0x7814]) == [0, 1]
    ensures FinalWeight(HANGYAN, [0x676d, 0x7814]) == -17.79622323185849016
    ensures HmmCut(HANGYAN, [0x676d, 0x7814], 0, 2) == [WordRange(0, 1)]
  {
    var m, t := HANGYAN, [0x676d, 0x7814];
    HangyanSecond(E);
    HangyanSecond(S);
    hide CellAt;
    assert Back(m, t, 0, 0) == [0] && Back(m, t, 1, E) == [0] + [1];
    assert t[0..2] == t;
    hide Back;
    assert WordsOf([0, 1], 0, 0, 0) == [WordRange(0, 1)];
  }

  // ---------------------------------------------------------------- how low weights may be

  /** Log-probabilities of at least `least`, for a text of runes that every state can emit. */
  ghost predicate AtLeast(m: HMMModel, t: seq<Rune>, least: real) {
    && LogProbabilities(m)
    && (forall y :: 0 <= y < STATUS_SUM ==> m.startProb[y] >= least)
    && (forall y, z :: 0 <= y < STATUS_SUM && 0 <= z < STATUS_SUM ==> m.transProb[y][z] >= least)
    && (forall y: State, x :: 0 <= x < |t| ==> t[x] in m.emitProbVec[y] && m.emitProbVec[y][t[x]] >= least)
  }

  lemma {:induction false} ScoreAtLeast(m: HMMModel, t: seq<Rune>, ss: seq<State>, least: real)
    requires 0 < |ss| <= |t| && AtLeast(m, t, least)
    ensures Score(m, t, ss) >= Times(least, 2 * |ss|)
  {
    var n := |ss| - 1;
    TimesNext(least, 2 * n);
    TimesNext(least, 2 * n + 1);
    TimesNext(least, 0);
    hide Times;
    assert m.GetEmitProb(ss[n], t[n]) >= least;
    if n > 0 {
      ScoreAtLeast(m, t, ss[..n], least);
    }
  }

  /** If not even the worst sequence falls below the clamp, the result is one of highest score. */
  lemma ModerateWeightsGiveBestPath(m: HMMModel, t: seq<Rune>, least: real)
    requires |t| >= 2 && AtLeast(m, t, least) && Times(least, 2 * |t|) >= MIN_DOUBLE
    ensures IsBestPath(m, t, Status(m, t))
  {
    hide Score, CellAt, Back, LastState, Times;
    CellIsClampedMaximum(m, t, |t| - 1, LastState(m, t));
    if FinalWeight(m, t) > MIN_DOUBLE {
      WeightsFallAlongPath(m, t, |t| - 1, LastState(m, t));
      StatusIsBest(m, t);
    } else {
      forall ss | Ends(ss, |t|)
        ensures Score(m, t, ss) == MIN_DOUBLE
      {
        ScoreAtLeast(m, t, ss, least);
        FinalWeightIsUpperBound(m, t, ss);
      }
    }
  }

  /** All weights are `least`, except that state S emits rune 2 with weight `most`. */
  function SkewedModel(least: real, most: real): (m: HMMModel)
    ensures m.WellFormed()
  {
    var row := [least, least, least, least];
    var plain: map<Rune, real> := map[1 := least, 2 := least];
    HMMModel(row, [row, row, row, row], [plain, plain, plain, map[1 := least, 2 := most]])
  }

  /** Rune 2 is the last but one. */
  function SkewedText(n: nat): (t: seq<Rune>)
    requires n >= 2
    ensures |t| == n && t[n - 2] == 2 && forall x :: 0 <= x < n && x != n - 2 ==> t[x] == 1
  {
    seq(n, x => if x == n - 2 then 2 else 1)
  }

  lemma {:induction false} SkewedScore(n: nat, least: real, most: real, ss: seq<State>)
    requires 2 <= n && 0 < |ss| <= n
    ensures Score(SkewedModel(least, most), SkewedText(n), ss) ==
            Times(least, 2 * |ss|) + if |ss| >= n - 1 && ss[n - 2] == S then most - least else 0.0
  {
    var k := |ss| - 1;
    TimesNext(least, 2 * k);
    TimesNext(least, 2 * k + 1);
    TimesNext(least, 0);
    hide Times, SkewedText;
    var m, t := SkewedModel(least, most), SkewedText(n);
    assert m.GetEmitProb(ss[k], t[k]) == if k == n - 2 && ss[k] == S then most else least;
    if k > 0 {
      SkewedScore(n, least, most, ss[..k]);
    }
  }

  /** Below the bound the last entries are clamped, the path falls back on E, and S would have been better. */
  lemma ClampLosesTheBestPath(n: nat, least: real, most: real)
    requires 2 <= n && least < most <= 0.0 && Times(least, 2 * n - 1) + most <= MIN_DOUBLE
    ensures AtLeast(SkewedModel(least, most), SkewedText(n), least)
    ensures !IsBestPath(SkewedModel(least, most), SkewedText(n), Status(SkewedModel(least, most), SkewedText(n)))
  {
    var m, t := SkewedModel(least, most), SkewedText(n);
    SkewedAtLeast(n, least, most);
    SkewedStatus(n, least, most);
    hide AtLeast, Times, SkewedModel, SkewedText, Score, Status;
    SkewedBetter(n, least, most, Status(m, t));
  }

  /** In state S instead of E, the last rune but one gains the difference. */
  lemma SkewedBetter(n: nat, least: real, most: real, ss: seq<State>)
    requires 2 <= n && least < most && Ends(ss, n) && ss[n - 2] == E
    ensures Ends(ss[n - 2 := S], n)
    ensures Score(SkewedModel(least, most), SkewedText(n), ss) < Score(SkewedModel(least, most), SkewedText(n), ss[n - 2 := S])
  {
    hide SkewedModel, SkewedText, Score, Times;
    SkewedScore(n, least, most, ss);
    SkewedScore(n, least, most, ss[n - 2 := S]);
  }

  lemma SkewedStatus(n: nat, least: real, most: real)
    requires 2 <= n && least < most <= 0.0 && Times(least, 2 * n - 1) + most <= MIN_DOUBLE
    ensures Status(SkewedModel(least, most), SkewedText(n))[n - 2] == E
  {
    hide Times, SkewedModel, SkewedText, CellAt, Back, LastState;
    var m, t := SkewedModel(least, most), SkewedText(n);
    SkewedEntry(n, least, most, LastState(m, t));
    BackSteps(m, t, n - 1, LastState(m, t));
  }

  lemma SkewedAtLeast(n: nat, least: real, most: real)
    requires 2 <= n && least < most <= 0.0
    ensures AtLeast(SkewedModel(least, most), SkewedText(n), least)
  {
  }

  lemma SkewedEntry(n: nat, least: real, most: real, y: State)
    requires 2 <= n && least < most <= 0.0 && Times(least, 2 * n - 1) + most <= MIN_DOUBLE
    ensures CellAt(SkewedModel(least, most), SkewedText(n), n - 1, y).path == E
  {
    hide Times, SkewedModel, SkewedText, CellAt, Via;
    SkewedWeight(n, least, most, y);
    CellIsClampedMaximum(SkewedModel(least, most), SkewedText(n), n - 1, y);
  }

  lemma SkewedWeight(n: nat, least: real, most: real, y: State)
    requires 2 <= n && least < most <= 0.0 && Times(least, 2 * n - 1) + most <= MIN_DOUBLE
    ensures CellAt(SkewedModel(least, most), SkewedText(n), n - 1, y).weight <= MIN_DOUBLE
  {
    var m, t := SkewedModel(least, most), SkewedText(n);
    assert LogProbabilities(m);
    TimesNext(least, 2 * n - 1);
    assert Times(least, 2 * n) + most - least <= MIN_DOUBLE;
    hide Times, SkewedModel, SkewedText, Score, CellAt, Back, LogProbabilities, Via, Unclamped;
    if CellAt(m, t, n - 1, y).weight > MIN_DOUBLE {
      WeightsFallAlongPath(m, t, n - 1, y);
      BackAttainsTable(m, t, n - 1, y);
      SkewedScore(n, least, most, Back(m, t, n - 1, y));
    }
  }

  /** Every text of `n` runes is decoded best, under every model with weights of at least `least`. */
  ghost predicate AlwaysBest(n: nat, least: real)
    requires n > 0
  {
    forall m: HMMModel, t: seq<Rune> :: |t| == n && AtLeast(m, t, least) ==> IsBestPath(m, t, Status(m, t))
  }

  /** The bound is exact: it holds if and only if no model within it and no text of that length is decoded wrongly. */
  lemma BestPathExactly(n: nat, least: real)
    requires 2 <= n && least <= 0.0
    ensures AlwaysBest(n, least) <==> least * (2 * n) as real >= -3.14e100
  {
    hide IsBestPath, Status;
    TimesNext(least, 2 * n - 1);
    assert least == 0.0 ==> Times(least, 2 * n) == 0.0;
    hide Times;
    if Times(least, 2 * n) >= MIN_DOUBLE {
      forall m: HMMModel, t: seq<Rune> | |t| == n && AtLeast(m, t, least)
        ensures IsBestPath(m, t, Status(m, t))
      {
        ModerateWeightsGiveBestPath(m, t, least);
      }
    } else {
      var room := MIN_DOUBLE - Times(least, 2 * n - 1);
      ClampLosesTheBestPath(n, least, if room < 0.0 then room else 0.0);
    }
  }

  // ---------------------------------------------------------------- the decoder

  /** Row-major index of state `y` at rune `x` in a table of `n` runes. */
  function At(x: nat, y: State, n: nat): nat {
    if y == 0 then x else if y == 1 then x + n else if y == 2 then x + n + n else x + n + n + n
  }

  lemma AtIsProduct(x: nat, y: State, n: nat)
    ensures x + y * n == At(x, y, n)
  {
  }

  /** Entry `(x, y)` of the two parallel tables holds its value. */
  ghost predicate Filled(m: HMMModel, t: seq<Rune>, weight: seq<real>, path: seq<int>, x: nat, y: State)
    requires m.WellFormed() && x < |t| && |weight| == |path| == |t| * STATUS_SUM
  {
    Cell(path[At(x, y, |t|)], weight[At(x, y, |t|)]) == CellAt(m, t, x, y)
  }

  /** The entries of all earlier runes, and of the first `k` states at rune `x`, hold their values. */
  ghost predicate FilledBefore(m: HMMModel, t: seq<Rune>, weight: seq<real>, path: seq<int>, x: nat, k: nat)
    requires m.WellFormed() && |weight| == |path| == |t| * STATUS_SUM
  {
    forall x': nat, y': State :: x' < |t| && (x' < x || (x' == x && y' < k)) ==> Filled(m, t, weight, path, x', y')
  }

  lemma AtInjective(x: nat, y: State, x': nat, y': State, n: nat)
    requires x < n && x' < n
    ensures At(x, y, n) < n * STATUS_SUM
    ensures At(x, y, n) == At(x', y', n) ==> x == x' && y == y'
  {
  }

  /** Writing entry `(x, y)` disturbs no entry filled before it. */
  lemma WriteKeeps(m: HMMModel, t: seq<Rune>, weight: seq<real>, path: seq<int>, x: nat, y: State, now: nat, c: Cell)
    requires m.WellFormed() && |weight| == |path| == |t| * STATUS_SUM && x < |t| && now == At(x, y, |t|)
    requires FilledBefore(m, t, weight, path, x, y)
    ensures now < |weight|
    ensures FilledBefore(m, t, weight[now := c.weight], path[now := c.path], x, y)
    ensures c == CellAt(m, t, x, y) ==> FilledBefore(m, t, weight[now := c.weight], path[now := c.path], x, y + 1)
  {
    hide CellAt, At;
    AtInjective(x, y, x, y, |t|);
    var weight', path' := weight[now := c.weight], path[now := c.path];
    forall x': nat, y': State | x' < |t| && (x' < x || (x' == x && y' < y))
      ensures Filled(m, t, weight', path', x', y')
    {
      assert Filled(m, t, weight, path, x', y');
      AtInjective(x', y', x, y, |t|);
    }
  }

  lemma EntryFilled(m: HMMModel, t: seq<Rune>, weight: seq<real>, path: seq<int>, x: nat, k: nat, x': nat, y': State)
    requires m.WellFormed() && |weight| == |path| == |t| * STATUS_SUM
    requires FilledBefore(m, t, weight, path, x, k) && x' < |t| && (x' < x || (x' == x && y' < k))
    ensures x' + y' * |t| < |weight|
    ensures Cell(path[x' + y' * |t|], weight[x' + y' * |t|]) == CellAt(m, t, x', y')
  {
    assert Filled(m, t, weight, path, x', y');
    AtIsProduct(x', y', |t|);
    AtInjective(x', y', x', y', |t|);
  }

  method Viterbi(m: HMMModel, t: seq<Rune>) returns (status: seq<State>)
    requires m.WellFormed() && t != []
    ensures status == Status(m, t)
  {
    var Y := STATUS_SUM;
    var X := |t|;
    var path := new int[X * Y];
    var weight := new real[X * Y];

    for y := 0 to Y
      invariant FilledBefore(m, t, weight[..], path[..], 0, y)
    {
      AtIsProduct(0, y, X);
      var c := m.startProb[y] + m.GetEmitProb(y, t[0]);
      WriteKeeps(m, t, weight[..], path[..], 0, y, 0 + y * X, Cell(-1, c));
      weight[0 + y * X] := c;
      path[0 + y * X] := -1;
    }

    for x := 1 to X
      invariant FilledBefore(m, t, weight[..], path[..], x, 0)
    {
      for y := 0 to Y
        invariant FilledBefore(m, t, weight[..], path[..], x, y)
      {
        FillEntry(m, t, weight, path, x, y);
      }
    }

    status := ReadBack(m, t, weight, path);
  }

  method ReadBack(m: HMMModel, t: seq<Rune>, weight: array<real>, path: array<int>) returns (status: seq<State>)
    requires m.WellFormed() && t != []
    requires weight.Length == path.Length == |t| * STATUS_SUM
    requires FilledBefore(m, t, weight[..], path[..], |t|, 0)
    ensures status == Status(m, t)
  {
    hide FilledBefore, CellAt, Back, Score;
    var X := |t|;
    EntryFilled(m, t, weight[..], path[..], |t|, 0, X - 1, E);
    EntryFilled(m, t, weight[..], path[..], |t|, 0, X - 1, S);
    var endE := weight[X - 1 + E * X];
    var endS := weight[X - 1 + S * X];
    var stat: int;
    if endE >= endS {
      stat := E;
    } else {
      stat := S;
    }

    status := [];
    var x := X - 1;
    assert Back(m, t, x, stat) + [] == Back(m, t, x, stat);
    while x >= 0
      invariant -1 <= x < X
      invariant x >= 0 ==> 0 <= stat < STATUS_SUM
      invariant x >= 0 ==> Back(m, t, x, stat) + status == Status(m, t)
      invariant x < 0 ==> status == Status(m, t)
    {
      if x > 0 {
        BackSteps(m, t, x, stat);
        ghost var rest := Back(m, t, x - 1, CellAt(m, t, x, stat).path);
        assert Back(m, t, x, stat) + status == rest + ([stat] + status);
      } else {
        BackBegins(m, t, stat);
      }
      status := [stat] + status;
      stat := Previous(m, t, weight, path, x, stat);
      x := x - 1;
    }
  }

  method Previous(m: HMMModel, t: seq<Rune>, weight: array<real>, path: array<int>, x: nat, stat: State) returns (pre: int)
    requires m.WellFormed() && x < |t|
    requires weight.Length == path.Length == |t| * STATUS_SUM
    requires FilledBefore(m, t, weight[..], path[..], |t|, 0)
    ensures pre == CellAt(m, t, x, stat).path
  {
    hide FilledBefore, CellAt;
    EntryFilled(m, t, weight[..], path[..], |t|, 0, x, stat);
    pre := path[x + stat * |t|];
  }

  /** The innermost loop: the best predecessor of one entry. */
  method FillEntry(m: HMMModel, t: seq<Rune>, weight: array<real>, path: array<int>, x: nat, y: State)
    requires m.WellFormed() && 0 < x < |t|
    requires weight.Length == path.Length == |t| * STATUS_SUM
    requires FilledBefore(m, t, weight[..], path[..], x, y)
    modifies weight, path
    ensures FilledBefore(m, t, weight[..], path[..], x, y + 1)
  {
    hide FilledBefore;
    var X := |t|;
    AtIsProduct(x, y, X);
    var now := x + y * X;
    WriteKeeps(m, t, weight[..], path[..], x, y, now, Cell(E, MIN_DOUBLE));
    weight[now] := MIN_DOUBLE;
    path[now] := E;
    var emitProb := m.GetEmitProb(y, t[x]);
    for preY := 0 to STATUS_SUM
      invariant FilledBefore(m, t, weight[..], path[..], x, y)
      invariant Cell(path[now], weight[now]) == Scan(m, t, x, y, preY)
    {
      EntryFilled(m, t, weight[..], path[..], x, y, x - 1, preY);
      var before := x - 1 + preY * X;
      var tmp := weight[before] + m.transProb[preY][y] + emitProb;
      assert tmp == Via(m, t, x, y, preY);
      if tmp > weight[now] {
        WriteKeeps(m, t, weight[..], path[..], x, y, now, Cell(preY, tmp));
        weight[now] := tmp;
        path[now] := preY;
      }
    }
    assert weight[..][now := weight[now]] == weight[..] && path[..][now := path[now]] == path[..];
    WriteKeeps(m, t, weight[..], path[..], x, y, now, Cell(path[now], weight[now]));
  }

  // ---------------------------------------------------------------- from states to words

  /** A word ends at every odd state: E and S. The first word starts at `left`, state `i` stands at rune `begin + i`. */
  function WordsOf(ss: seq<State>, i: nat, begin: nat, left: nat): seq<WordRange>
    requires i <= |ss|
    decreases |ss| - i
  {
    if i == |ss| then []
    else if ss[i] % 2 == 1 then [WordRange(left, begin + i)] + WordsOf(ss, i + 1, begin, begin + i + 1)
    else WordsOf(ss, i + 1, begin, left)
  }

  lemma {:induction false} WordsTile(ss: seq<State>, i: nat, begin: nat, left: nat)
    requires i < |ss| && left <= begin + i && ss[|ss| - 1] % 2 == 1
    ensures Tiles(WordsOf(ss, i, begin, left), left, begin + |ss|)
    decreases |ss| - i
  {
    var w := WordRange(left, begin + i);
    if i + 1 == |ss| {
      assert WordsOf(ss, i + 1, begin, begin + i + 1) == [];
      TilesCons(w, [], begin + |ss|);
    } else if ss[i] % 2 == 1 {
      WordsTile(ss, i + 1, begin, begin + i + 1);
      TilesCons(w, WordsOf(ss, i + 1, begin, begin + i + 1), begin + |ss|);
    } else {
      WordsTile(ss, i + 1, begin, left);
    }
  }

  /** The words of the non-empty range `[left, right)`, found by decoding it. */
  function Decoded(m: HMMModel, text: seq<Rune>, left: nat, right: nat): seq<WordRange>
    requires m.WellFormed() && left < right <= |text|
  {
    WordsOf(Status(m, text[left..right]), 0, left, left)
  }

  lemma DecodedTiles(m: HMMModel, text: seq<Rune>, left: nat, right: nat)
    requires m.WellFormed() && left < right <= |text|
    ensures Tiles(Decoded(m, text, left, right), left, right)
  {
    WordsTile(Status(m, text[left..right]), 0, left, left);
  }

  /** `w` runs from behind one odd state to the next. */
  ghost predicate BetweenOdds(ss: seq<State>, begin: nat, w: WordRange) {
    && begin <= w.left <= w.right < begin + |ss|
    && ss[w.right - begin] % 2 == 1
    && (forall k :: w.left - begin <= k < w.right - begin ==> ss[k] % 2 == 0)
    && (w.left > begin ==> ss[w.left - begin - 1] % 2 == 1)
  }

  lemma {:induction false} WordsOfExact(ss: seq<State>, i: nat, begin: nat, left: nat, w: WordRange)
    requires i <= |ss| && begin <= left <= begin + i
    requires forall k :: left - begin <= k < i ==> ss[k] % 2 == 0
    requires left > begin ==> ss[left - begin - 1] % 2 == 1
    ensures w in WordsOf(ss, i, begin, left) <==> BetweenOdds(ss, begin, w) && w.left >= left && w.right >= begin + i
    decreases |ss| - i
  {
    if i < |ss| {
      if ss[i] % 2 == 1 {
        WordsOfExact(ss, i + 1, begin, begin + i + 1, w);
      } else {
        WordsOfExact(ss, i + 1, begin, left, w);
      }
    }
  }

  /** The words of a decoded range are exactly the stretches that end at a state E or S and hold none before. */
  lemma DecodedExactly(m: HMMModel, text: seq<Rune>, left: nat, right: nat, w: WordRange)
    requires m.WellFormed() && left < right <= |text|
    ensures var ss := Status(m, text[left..right]);
            w in Decoded(m, text, left, right) <==>
              && left <= w.left <= w.right < right
              && (ss[w.right - left] == E || ss[w.right - left] == S)
              && (forall k :: w.left - left <= k < w.right - left ==> ss[k] != E && ss[k] != S)
              && (w.left > left ==> ss[w.left - left - 1] == E || ss[w.left - left - 1] == S)
  {
    hide Status;
    var ss := Status(m, text[left..right]);
    assert forall k :: 0 <= k < |ss| ==> (ss[k] % 2 == 1 <==> ss[k] == E || ss[k] == S);
    WordsOfExact(ss, 0, left, left, w);
  }

  /** A rune in an odd state behind an odd state is a word of its own. */
  lemma {:induction false} OddBehindOdd(ss: seq<State>, i: nat, begin: nat, left: nat, x: nat)
    requires i <= x < |ss| && ss[x] % 2 == 1
    requires if i == x then left == begin + x else ss[x - 1] % 2 == 1
    ensures WordRange(begin + x, begin + x) in WordsOf(ss, i, begin, left)
    decreases x - i
  {
    if i < x {
      OddBehindOdd(ss, i + 1, begin, if ss[i] % 2 == 1 then begin + i + 1 else left, x);
    }
  }

  /** An unknown rune, unless it comes first, and every rune behind it are words of their own. */
  lemma UnknownRuneCutsTheRest(m: HMMModel, text: seq<Rune>, left: nat, right: nat, u: nat, x: nat)
    requires AllLogProbabilities(m) && left < u <= x < right <= |text| && IsUnknown(m, text[u])
    ensures WordRange(x, x) in Decoded(m, text, left, right)
  {
    var t := text[left..right];
    hide Status;
    UnknownRuneForcesE(m, t, u - left);
    OddBehindOdd(Status(m, t), 0, left, left, x - left);
  }

  // ---------------------------------------------------------------- letters and numbers

  predicate IsLetter(x: Rune): (r: bool)
    ensures r <==> 0x41 <= x <= 0x5a || 0x61 <= x <= 0x7a
  {
    ('a' as int <= x <= 'z' as int) || ('A' as int <= x <= 'Z' as int)
  }

  predicate IsDigit(x: Rune): (r: bool)
    ensures r <==> 0x30 <= x <= 0x39
  {
    '0' as int <= x <= '9' as int
  }

  predicate IsLetterOrDigit(x: Rune) {
    IsLetter(x) || IsDigit(x)
  }

  predicate IsNumberPart(x: Rune): (r: bool)
    ensures r <==> IsDigit(x) || x == 0x2e
  {
    IsDigit(x) || x == '.' as int
  }

  /** `to` is the end of the longest run of `p` that starts at `from`. */
  ghost predicate EndsRun(text: seq<Rune>, from: nat, end: nat, to: nat, p: Rune -> bool) {
    && from <= to <= end <= |text|
    && (forall k :: from <= k < to ==> p(text[k]))
    && (to < end ==> !p(text[to]))
  }

  method SequentialLetterRule(text: seq<Rune>, begin: nat, end: nat) returns (r: nat)
    requires begin < end <= |text|
    ensures if IsLetter(text[begin]) then r > begin && EndsRun(text, begin, end, r, IsLetterOrDigit) else r == begin
  {
    r := begin;
    if IsLetter(text[r]) {
      r := r + 1;
    } else {
      return;
    }
    while r != end
      invariant begin < r <= end
      invariant forall k :: begin <= k < r ==> IsLetterOrDigit(text[k])
    {
      if IsLetter(text[r]) || IsDigit(text[r]) {
        r := r + 1;
      } else {
        break;
      }
    }
  }

  method NumbersRule(text: seq<Rune>, begin: nat, end: nat) returns (r: nat)
    requires begin < end <= |text|
    ensures if IsDigit(text[begin]) then r > begin && EndsRun(text, begin, end, r, IsNumberPart) else r == begin
  {
    r := begin;
    if IsDigit(text[r]) {
      r := r + 1;
    } else {
      return;
    }
    while r != end
      invariant begin < r <= end
      invariant forall k :: begin <= k < r ==> IsNumberPart(text[k])
    {
      if IsDigit(text[r]) || text[r] == '.' as int {
        r := r + 1;
      } else {
        break;
      }
    }
  }

  /** The longest run of `p` from `from` on. */
  function RunEnd(text: seq<Rune>, from: nat, end: nat, p: Rune -> bool): (to: nat)
    requires from <= end <= |text|
    ensures EndsRun(text, from, end, to, p)
    decreases end - from
  {
    if from < end && p(text[from]) then RunEnd(text, from + 1, end, p) else from
  }

  lemma {:induction false} RunEndUnique(text: seq<Rune>, from: nat, end: nat, to: nat, p: Rune -> bool)
    requires EndsRun(text, from, end, to, p)
    ensures to == RunEnd(text, from, end, p)
    decreases end - from
  {
    if from < to {
      RunEndUnique(text, from + 1, end, to, p);
    }
  }

  /** The end of the word that starts at an ASCII rune: a name, a number, or that rune alone. */
  function AsciiEnd(text: seq<Rune>, left: nat, end: nat): (r: nat)
    requires left < end <= |text|
    ensures left < r <= end
    ensures text[left] < 0x80 ==> forall k :: left <= k < r ==> text[k] < 0x80
  {
    if IsLetter(text[left]) then RunEnd(text, left, end, IsLetterOrDigit)
    else if IsDigit(text[left]) then RunEnd(text, left, end, IsNumberPart)
    else left + 1
  }

  // ---------------------------------------------------------------- the cut

  /** The cut of `[left, end)` when the runes `[left, right)` are known to be non-ASCII. */
  function HmmFrom(m: HMMModel, text: seq<Rune>, left: nat, right: nat, end: nat): seq<WordRange>
    requires m.WellFormed() && left <= right <= end <= |text|
    decreases end - right
  {
    if right == end then
      Pending(m, text, left, right)
    else if text[right] < 0x80 then
      var next := AsciiEnd(text, right, end);
      Pending(m, text, left, right) + [WordRange(right, next - 1)] + HmmFrom(m, text, next, next, end)
    else
      HmmFrom(m, text, left, right + 1, end)
  }

  function Pending(m: HMMModel, text: seq<Rune>, left: nat, right: nat): seq<WordRange>
    requires m.WellFormed() && left <= right <= |text|
  {
    if left != right then Decoded(m, text, left, right) else []
  }

  function HmmCut(m: HMMModel, text: seq<Rune>, begin: nat, end: nat): seq<WordRange>
    requires m.WellFormed() && begin <= end <= |text|
  {
    HmmFrom(m, text, begin, begin, end)
  }

  lemma PendingTiles(m: HMMModel, text: seq<Rune>, left: nat, right: nat)
    requires m.WellFormed() && left <= right <= |text|
    ensures Tiles(Pending(m, text, left, right), left, right)
  {
    if left != right {
      DecodedTiles(m, text, left, right);
    }
  }

  lemma {:induction false} HmmFromTiles(m: HMMModel, text: seq<Rune>, left: nat, right: nat, end: nat)
    requires m.WellFormed() && left <= right <= end <= |text|
    ensures Tiles(HmmFrom(m, text, left, right, end), left, end)
    decreases end - right
  {
    hide Tiles, Pending;
    if right == end {
      PendingTiles(m, text, left, right);
    } else if text[right] < 0x80 {
      var next := AsciiEnd(text, right, end);
      var w := WordRange(right, next - 1);
      var rest := HmmFrom(m, text, next, next, end);
      PendingTiles(m, text, left, right);
      HmmFromTiles(m, text, next, next, end);
      TilesCons(w, rest, end);
      TilesAppend(Pending(m, text, left, right), [w] + rest, left, right, end);
      assert Pending(m, text, left, right) + [w] + rest == Pending(m, text, left, right) + ([w] + rest);
    } else {
      HmmFromTiles(m, text, left, right + 1, end);
    }
  }

  /** For any model whatever, the words cover the range in order and none is empty. */
  lemma HmmCutTiles(m: HMMModel, text: seq<Rune>, begin: nat, end: nat)
    requires m.WellFormed() && begin <= end <= |text|
    ensures Tiles(HmmCut(m, text, begin, end), begin, end)
  {
    HmmFromTiles(m, text, begin, begin, end);
  }

  ghost predicate Unmixed(text: seq<Rune>, w: WordRange) {
    && w.left <= w.right < |text|
    && ((forall k :: w.left <= k <= w.right ==> text[k] < 0x80)
     || (forall k :: w.left <= k <= w.right ==> text[k] >= 0x80))
  }

  lemma PendingUnmixed(m: HMMModel, text: seq<Rune>, left: nat, right: nat, w: WordRange)
    requires m.WellFormed() && left <= right <= |text|
    requires forall k :: left <= k < right ==> text[k] >= 0x80
    requires w in Pending(m, text, left, right)
    ensures Unmixed(text, w)
  {
    PendingTiles(m, text, left, right);
    TilesBounds(Pending(m, text, left, right), left, right);
  }

  lemma {:induction false} HmmFromUnmixed(m: HMMModel, text: seq<Rune>, left: nat, right: nat, end: nat, w: WordRange)
    requires m.WellFormed() && left <= right <= end <= |text|
    requires forall k :: left <= k < right ==> text[k] >= 0x80
    requires w in HmmFrom(m, text, left, right, end)
    ensures Unmixed(text, w)
    decreases end - right
  {
    hide Pending;
    if right == end {
      PendingUnmixed(m, text, left, right, w);
    } else if text[right] < 0x80 {
      var next := AsciiEnd(text, right, end);
      if w in Pending(m, text, left, right) {
        PendingUnmixed(m, text, left, right, w);
      } else if w != WordRange(right, next - 1) {
        HmmFromUnmixed(m, text, next, next, end, w);
      }
    } else {
      HmmFromUnmixed(m, text, left, right + 1, end, w);
    }
  }

  /** No word mixes ASCII runes with others. */
  lemma HmmCutUnmixed(m: HMMModel, text: seq<Rune>, begin: nat, end: nat)
    requires m.WellFormed() && begin <= end <= |text|
    ensures forall w :: w in HmmCut(m, text, begin, end) ==>
              && w.left <= w.right < |text|
              && forall k, l :: w.left <= k <= w.right && w.left <= l <= w.right ==> (text[k] < 0x80 <==> text[l] < 0x80)
  {
    forall w | w in HmmCut(m, text, begin, end)
      ensures Unmixed(text, w)
    {
      HmmFromUnmixed(m, text, begin, begin, end, w);
    }
  }

  /** A word of ASCII runes is the longest name or number that starts there, or a single rune. */
  ghost predicate AsciiWord(text: seq<Rune>, end: nat, w: WordRange)
    requires w.left < |text|
  {
    if IsLetter(text[w.left]) then EndsRun(text, w.left, end, w.right + 1, IsLetterOrDigit)
    else if IsDigit(text[w.left]) then EndsRun(text, w.left, end, w.right + 1, IsNumberPart)
    else w.right == w.left
  }

  lemma {:induction false} HmmFromAscii(m: HMMModel, text: seq<Rune>, left: nat, right: nat, end: nat, w: WordRange)
    requires m.WellFormed() && left <= right <= end <= |text|
    requires forall k :: left <= k < right ==> text[k] >= 0x80
    requires w in HmmFrom(m, text, left, right, end) && w.left < |text| && text[w.left] < 0x80
    ensures AsciiWord(text, end, w)
    decreases end - right
  {
    hide Pending, RunEnd;
    if w in Pending(m, text, left, right) {
      PendingBounds(m, text, left, right, w);
    } else if right < end {
      if text[right] < 0x80 {
        var next := AsciiEnd(text, right, end);
        if w != WordRange(right, next - 1) {
          HmmFromAscii(m, text, next, next, end, w);
        }
      } else {
        HmmFromAscii(m, text, left, right + 1, end, w);
      }
    }
  }

  lemma PendingBounds(m: HMMModel, text: seq<Rune>, left: nat, right: nat, w: WordRange)
    requires m.WellFormed() && left <= right <= |text| && w in Pending(m, text, left, right)
    ensures left <= w.left <= w.right < right
  {
    PendingTiles(m, text, left, right);
    TilesBounds(Pending(m, text, left, right), left, right);
  }

  /** A word that starts with a letter is the longest run of letters and digits from there, one that starts with a digit
      the longest run of digits and points, and any other rune below 0x80 is a word of its own. */
  lemma AsciiWords(m: HMMModel, text: seq<Rune>, begin: nat, end: nat, w: WordRange)
    requires m.WellFormed() && begin <= end <= |text| && w in HmmCut(m, text, begin, end)
    ensures w.left <= w.right < end
    ensures IsLetter(text[w.left]) ==> EndsRun(text, w.left, end, w.right + 1, IsLetterOrDigit)
    ensures IsDigit(text[w.left]) ==> EndsRun(text, w.left, end, w.right + 1, IsNumberPart)
    ensures text[w.left] < 0x80 && !IsLetterOrDigit(text[w.left]) ==> w.right == w.left
  {
    HmmCutTiles(m, text, begin, end);
    TilesBounds(HmmCut(m, text, begin, end), begin, end);
    if text[w.left] < 0x80 {
      HmmFromAscii(m, text, begin, begin, end, w);
    }
  }

  lemma HmmFromBounds(m: HMMModel, text: seq<Rune>, left: nat, right: nat, end: nat, w: WordRange)
    requires m.WellFormed() && left <= right <= end <= |text| && w in HmmFrom(m, text, left, right, end)
    ensures left <= w.left <= w.right < end
  {
    HmmFromTiles(m, text, left, right, end);
    TilesBounds(HmmFrom(m, text, left, right, end), left, end);
  }

  /** Below `right`, where the run `[a, b)` that has been collected so far began at `left`. */
  lemma {:induction false} HmmFromDecoded(m: HMMModel, text: seq<Rune>, left: nat, right: nat, end: nat, a: nat, b: nat, w: WordRange)
    requires m.WellFormed() && left <= right <= end <= |text| && left <= a < b <= end && (a <= right ==> a == left) && right <= b
    requires forall k :: left <= k < right ==> text[k] >= 0x80
    requires forall k :: a <= k < b ==> text[k] >= 0x80
    requires (a > left ==> text[a - 1] < 0x80) && (b < end ==> text[b] < 0x80)
    requires a <= w.left < b
    ensures w in HmmFrom(m, text, left, right, end) <==> w in Decoded(m, text, a, b)
    decreases end - right
  {
    hide Decoded;
    if right == end {
    } else if text[right] < 0x80 {
      var next := AsciiEnd(text, right, end);
      if w in Pending(m, text, left, right) {
        PendingBounds(m, text, left, right, w);
      }
      if right == b {
        if w in HmmFrom(m, text, next, next, end) {
          HmmFromBounds(m, text, next, next, end, w);
        }
      } else {
        assert text[a] >= 0x80;
        HmmFromDecoded(m, text, next, next, end, a, b, w);
      }
    } else {
      HmmFromDecoded(m, text, left, right + 1, end, a, b, w);
    }
  }

  /** Every maximal run of other runes is cut as the model decodes it. */
  lemma DecodedWords(m: HMMModel, text: seq<Rune>, begin: nat, end: nat, a: nat, b: nat, w: WordRange)
    requires m.WellFormed() && begin <= a < b <= end <= |text|
    requires forall k :: a <= k < b ==> text[k] >= 0x80
    requires (a > begin ==> text[a - 1] < 0x80) && (b < end ==> text[b] < 0x80)
    requires a <= w.left < b
    ensures w in HmmCut(m, text, begin, end) <==> w in Decoded(m, text, a, b)
  {
    HmmFromDecoded(m, text, begin, begin, end, a, b, w);
  }

  class HMMSegment {
    const model: HMMModel

    constructor (model: HMMModel)
      ensures this.model == model
    {
      this.model := model;
    }

    method InternalCut(text: seq<Rune>, begin: nat, end: nat, words: seq<WordRange>) returns (res: seq<WordRange>)
      requires model.WellFormed() && begin < end <= |text|
      ensures res == words + Decoded(model, text, begin, end)
    {
      var status := Viterbi(model, text[begin..end]);
      res := words;
      var left := begin;
      for i := 0 to |status|
        invariant res + WordsOf(status, i, begin, left) == words + WordsOf(status, 0, begin, begin)
      {
        if status[i] % 2 == 1 {
          var right := begin + i + 1;
          res := res + [WordRange(left, right - 1)];
          left := right;
        }
      }
      assert res + [] == res;
    }

    method Cut(runes: seq<RuneStr>, begin: nat, end: nat, words: seq<WordRange>) returns (res: seq<WordRange>)
      requires model.WellFormed() && begin <= end <= |runes|
      ensures res == words + HmmCut(model, RunesOf(runes), begin, end)
    {
      hide Decoded, AsciiEnd;
      var text := RunesOf(runes);
      res := words;
      var left, right := begin, begin;
      while right != end
        invariant begin <= left <= right <= end
        invariant res + HmmFrom(model, text, left, right, end) == words + HmmCut(model, text, begin, end)
        decreases end - right
      {
        if text[right] < 0x80 {
          ghost var before := res;
          if left != right {
            res := InternalCut(text, left, right, res);
          }
          assert res == before + Pending(model, text, left, right);
          left := right;
          right := WordEnd(text, left, end);
          res := res + [WordRange(left, right - 1)];
          left := right;
        } else {
          right := right + 1;
        }
      }
      if left != right {
        res := InternalCut(text, left, right, res);
      } else {
        assert res + [] == res;
      }
    }

    method WordEnd(text: seq<Rune>, left: nat, end: nat) returns (right: nat)
      requires left < end <= |text|
      ensures right == AsciiEnd(text, left, end)
    {
      right := SequentialLetterRule(text, left, end);
      if right != left {
        RunEndUnique(text, left, end, right, IsLetterOrDigit);
        return;
      }
      right := NumbersRule(text, left, end);
      if right != left {
        RunEndUnique(text, left, end, right, IsNumberPart);
        return;
      }
      right := left + 1;
    }
  }
}
