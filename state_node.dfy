/**
 * A state of the Missionaries and Cannibals puzzle: how many missionaries and
 * cannibals stand on the source bank, where the boat is, and the parameters of
 * the instance. Counts on the target bank are derived from the totals.
 */
module State {
  import opened Common
  import opened Parameters

  datatype BoatLocation = SourceRiverBank | TargetRiverBank

  function Opposite(bank: BoatLocation): BoatLocation
  {
    if bank == SourceRiverBank then TargetRiverBank else SourceRiverBank
  }

  /** The four final fields of a `StateNode`; equality is structural. */
  datatype StateNode = StateNode(
    missionariesOnSourceBank: int,
    cannibalsOnSourceBank: int,
    parameters: GameParameters,
    boatLocation: BoatLocation)

  /** Missionaries standing on `bank`. */
  function MissionariesOn(s: StateNode, bank: BoatLocation): int
  {
    if bank == SourceRiverBank then s.missionariesOnSourceBank
    else s.parameters.totalNumberOfMissionaries - s.missionariesOnSourceBank
  }

  /** Cannibals standing on `bank`. */
  function CannibalsOn(s: StateNode, bank: BoatLocation): int
  {
    if bank == SourceRiverBank then s.cannibalsOnSourceBank
    else s.parameters.totalNumberOfCannibals - s.cannibalsOnSourceBank
  }

  /** A bank is unsafe when missionaries are present there and outnumbered. */
  predicate Outnumbered(missionaries: int, cannibals: int)
  {
    0 < missionaries < cannibals
  }

  /**
   * `isTerminalState`: the source bank is checked first, then the target bank,
   * whose counts are the totals minus the source-bank counts.
   */
  predicate IsTerminalState(s: StateNode)
  {
    if s.missionariesOnSourceBank > 0
       && s.missionariesOnSourceBank < s.cannibalsOnSourceBank
    then
      true
    else
      var missionariesOnTargetBank := s.parameters.totalNumberOfMissionaries - s.missionariesOnSourceBank;
      var cannibalsOnTargetBank := s.parameters.totalNumberOfCannibals - s.cannibalsOnSourceBank;
      missionariesOnTargetBank > 0 && missionariesOnTargetBank < cannibalsOnTargetBank
  }

  /** A state is terminal exactly when some bank has its missionaries outnumbered. */
  lemma TerminalIffSomeBankOutnumbered(s: StateNode)
    ensures IsTerminalState(s) <==> exists bank :: Outnumbered(MissionariesOn(s, bank), CannibalsOn(s, bank))
  {
    if IsTerminalState(s) {
      if Outnumbered(MissionariesOn(s, SourceRiverBank), CannibalsOn(s, SourceRiverBank)) {
      } else {
        assert Outnumbered(MissionariesOn(s, TargetRiverBank), CannibalsOn(s, TargetRiverBank));
      }
    }
  }

  /** A bank without missionaries never makes a state terminal, whatever its cannibals. */
  lemma {:induction false} BankWithoutMissionariesIsSafe(s: StateNode, bank: BoatLocation)
    requires MissionariesOn(s, bank) == 0
    ensures IsTerminalState(s) <==> Outnumbered(MissionariesOn(s, Opposite(bank)), CannibalsOn(s, Opposite(bank)))
  {
    TerminalIffSomeBankOutnumbered(s);
    if IsTerminalState(s) {
      var b :| Outnumbered(MissionariesOn(s, b), CannibalsOn(s, b));
      assert b == Opposite(bank);
    }
  }

  /** `getSourceState`: everybody and the boat on the source bank. */
  function SourceState(p: GameParameters): (s: StateNode)
    ensures MissionariesOn(s, TargetRiverBank) == 0 && CannibalsOn(s, TargetRiverBank) == 0
    ensures MissionariesOn(s, SourceRiverBank) == p.totalNumberOfMissionaries
    ensures CannibalsOn(s, SourceRiverBank) == p.totalNumberOfCannibals
    ensures s.boatLocation == SourceRiverBank && s.parameters == p
  {
    StateNode(p.totalNumberOfMissionaries, p.totalNumberOfCannibals, p, SourceRiverBank)
  }

  /** `getTargetState`: everybody and the boat on the target bank. */
  function TargetState(p: GameParameters): (s: StateNode)
    ensures MissionariesOn(s, SourceRiverBank) == 0 && CannibalsOn(s, SourceRiverBank) == 0
    ensures MissionariesOn(s, TargetRiverBank) == p.totalNumberOfMissionaries
    ensures CannibalsOn(s, TargetRiverBank) == p.totalNumberOfCannibals
    ensures s.boatLocation == TargetRiverBank && s.parameters == p
  {
    StateNode(0, 0, p, TargetRiverBank)
  }

  /**
   * Neither end state is checked for safety: both are terminal exactly when
   * the instance has fewer, but some, missionaries than cannibals.
   */
  lemma EndStatesTerminalIff(p: GameParameters)
    ensures IsTerminalState(SourceState(p)) <==> Outnumbered(p.totalNumberOfMissionaries, p.totalNumberOfCannibals)
    ensures IsTerminalState(TargetState(p)) <==> Outnumbered(p.totalNumberOfMissionaries, p.totalNumberOfCannibals)
  {
    BankWithoutMissionariesIsSafe(SourceState(p), TargetRiverBank);
    BankWithoutMissionariesIsSafe(TargetState(p), SourceRiverBank);
  }

  // ---------------------------------------------------------------------------
  // Neighbour generation
  // ---------------------------------------------------------------------------

  /** The state after `m` missionaries and `c` cannibals cross from bank `from`. */
  function Crossing(s: StateNode, from: BoatLocation, m: int, c: int): StateNode
  {
    if from == SourceRiverBank then
      StateNode(s.missionariesOnSourceBank - m, s.cannibalsOnSourceBank - c, s.parameters, TargetRiverBank)
    else
      StateNode(s.missionariesOnSourceBank + m, s.cannibalsOnSourceBank + c, s.parameters, SourceRiverBank)
  }

  /** Missionaries that crossed from `from` to turn `s` into `x`. */
  function MovedMissionaries(s: StateNode, from: BoatLocation, x: StateNode): int
  {
    if from == SourceRiverBank then s.missionariesOnSourceBank - x.missionariesOnSourceBank
    else x.missionariesOnSourceBank - s.missionariesOnSourceBank
  }

  /** Cannibals that crossed from `from` to turn `s` into `x`. */
  function MovedCannibals(s: StateNode, from: BoatLocation, x: StateNode): int
  {
    if from == SourceRiverBank then s.cannibalsOnSourceBank - x.cannibalsOnSourceBank
    else x.cannibalsOnSourceBank - s.cannibalsOnSourceBank
  }

  /** `x` has the shape of a state one crossing from `from` away from `s`. */
  predicate LandsOpposite(s: StateNode, from: BoatLocation, x: StateNode)
  {
    x.parameters == s.parameters && x.boatLocation == Opposite(from)
  }

  /** Upper bound of the missionary loop (`availableMissionaries`). */
  function MissionaryLimit(s: StateNode, from: BoatLocation): int
  {
    if from == SourceRiverBank then
      Min(s.missionariesOnSourceBank, s.parameters.boatCapacity)
    else
      Min(s.parameters.boatCapacity, s.parameters.totalNumberOfMissionaries - s.missionariesOnSourceBank)
  }

  /**
   * Upper bound of the cannibal loop. From the source bank it shrinks with the
   * missionaries already aboard; from the target bank the loop runs to
   * `availableCannibals`, and the bound that would subtract `m` (`cend`) is
   * computed and never used.
   */
  function CannibalLimit(s: StateNode, from: BoatLocation, m: int): int
  {
    if from == SourceRiverBank then
      Min(s.cannibalsOnSourceBank, s.parameters.boatCapacity - m)
    else
      Min(s.parameters.boatCapacity, s.parameters.totalNumberOfCannibals - s.cannibalsOnSourceBank)
  }

  /** The cannibal loop starts at 1 when no missionary is aboard: the boat never crosses empty. */
  function FirstCannibalCount(m: int): int
  {
    if m == 0 then 1 else 0
  }

  /** The loads the two nested loops enumerate. */
  predicate LoadInRange(s: StateNode, from: BoatLocation, m: int, c: int)
  {
    0 <= m <= MissionaryLimit(s, from) && FirstCannibalCount(m) <= c <= CannibalLimit(s, from, m)
  }

  /** A candidate is kept unless it is terminal. */
  function KeepSafe(x: StateNode): seq<StateNode>
  {
    if IsTerminalState(x) then [] else [x]
  }

  /**
   * What the inner loop has appended once it reaches cannibal count `c` with
   * `m` missionaries aboard: the safe candidates for `FirstCannibalCount(m) .. c - 1`.
   */
  function CannibalPrefix(s: StateNode, from: BoatLocation, m: int, c: int): seq<StateNode>
    decreases c - FirstCannibalCount(m)
  {
    if c <= FirstCannibalCount(m) then []
    else CannibalPrefix(s, from, m, c - 1) + KeepSafe(Crossing(s, from, m, c - 1))
  }

  /** What the outer loop has appended once it reaches missionary count `m`. */
  function MissionaryPrefix(s: StateNode, from: BoatLocation, m: int): seq<StateNode>
    decreases m
  {
    if m <= 0 then []
    else MissionaryPrefix(s, from, m - 1) + CannibalPrefix(s, from, m - 1, CannibalLimit(s, from, m - 1) + 1)
  }

  /** What `trySendFromSource` / `trySendFromTarget` return: both loops run to their limits. */
  function Crossings(s: StateNode, from: BoatLocation): seq<StateNode>
  {
    MissionaryPrefix(s, from, Max(MissionaryLimit(s, from) + 1, 0))
  }

  /** `getNeighbors` / `buildNeighborsList`: dispatch on the boat's bank. */
  function Neighbors(s: StateNode): seq<StateNode>
  {
    Crossings(s, s.boatLocation)
  }

  lemma CrossingMoves(s: StateNode, from: BoatLocation, m: int, c: int)
    ensures var x := Crossing(s, from, m, c);
      LandsOpposite(s, from, x) && MovedMissionaries(s, from, x) == m && MovedCannibals(s, from, x) == c
  {
  }

  /** A state of the right shape is the crossing of its own moved counts. */
  lemma CrossingOfMoves(s: StateNode, from: BoatLocation, x: StateNode)
    requires LandsOpposite(s, from, x)
    ensures x == Crossing(s, from, MovedMissionaries(s, from, x), MovedCannibals(s, from, x))
  {
  }

  lemma {:induction false} CannibalPrefixMembers(s: StateNode, from: BoatLocation, m: int, c: int, x: StateNode)
    ensures x in CannibalPrefix(s, from, m, c) <==>
      && !IsTerminalState(x) && LandsOpposite(s, from, x)
      && MovedMissionaries(s, from, x) == m
      && FirstCannibalCount(m) <= MovedCannibals(s, from, x) < c
    decreases c - FirstCannibalCount(m)
  {
    if c > FirstCannibalCount(m) {
      CannibalPrefixMembers(s, from, m, c - 1, x);
      CrossingMoves(s, from, m, c - 1);
      if LandsOpposite(s, from, x) && MovedMissionaries(s, from, x) == m && MovedCannibals(s, from, x) == c - 1 {
        CrossingOfMoves(s, from, x);
      }
    }
  }

  lemma {:induction false} MissionaryPrefixMembers(s: StateNode, from: BoatLocation, m: int, x: StateNode)
    ensures x in MissionaryPrefix(s, from, m) <==>
      && !IsTerminalState(x) && LandsOpposite(s, from, x)
      && 0 <= MovedMissionaries(s, from, x) < m
      && FirstCannibalCount(MovedMissionaries(s, from, x)) <= MovedCannibals(s, from, x)
      && MovedCannibals(s, from, x) <= CannibalLimit(s, from, MovedMissionaries(s, from, x))
    decreases m
  {
    if m > 0 {
      MissionaryPrefixMembers(s, from, m - 1, x);
      CannibalPrefixMembers(s, from, m - 1, CannibalLimit(s, from, m - 1) + 1, x);
    }
  }

  /**
   * The neighbours generated from bank `from` are exactly the non-terminal
   * states one crossing away whose load lies in the loops' ranges.
   */
  lemma CrossingsMembers(s: StateNode, from: BoatLocation, x: StateNode)
    ensures x in Crossings(s, from) <==>
      && !IsTerminalState(x) && LandsOpposite(s, from, x)
      && LoadInRange(s, from, MovedMissionaries(s, from, x), MovedCannibals(s, from, x))
  {
    MissionaryPrefixMembers(s, from, Max(MissionaryLimit(s, from) + 1, 0), x);
  }

  /**
   * Sending from the source bank: the neighbours are the safe states with the
   * boat on the target bank reached by moving between 1 and `boatCapacity`
   * people, none of whom was missing from the source bank.
   */
  lemma NeighborsFromSource(s: StateNode, x: StateNode)
    requires s.boatLocation == SourceRiverBank
    ensures x in Neighbors(s) <==>
      && !IsTerminalState(x)
      && x.boatLocation == TargetRiverBank && x.parameters == s.parameters
      && 0 <= x.missionariesOnSourceBank <= s.missionariesOnSourceBank
      && 0 <= x.cannibalsOnSourceBank <= s.cannibalsOnSourceBank
      && 1 <= (s.missionariesOnSourceBank - x.missionariesOnSourceBank)
              + (s.cannibalsOnSourceBank - x.cannibalsOnSourceBank)
           <= s.parameters.boatCapacity
  {
    CrossingsMembers(s, SourceRiverBank, x);
  }

  /**
   * Sending from the target bank: each count is bounded by the boat capacity
   * and by what stands on the target bank, but their sum is not bounded by the
   * capacity (see `ReturnTripMayExceedCapacity`).
   */
  lemma NeighborsFromTarget(s: StateNode, x: StateNode)
    requires s.boatLocation == TargetRiverBank
    ensures x in Neighbors(s) <==>
      && !IsTerminalState(x)
      && x.boatLocation == SourceRiverBank && x.parameters == s.parameters
      && s.missionariesOnSourceBank <= x.missionariesOnSourceBank
      && x.missionariesOnSourceBank - s.missionariesOnSourceBank <= s.parameters.boatCapacity
      && x.missionariesOnSourceBank <= s.parameters.totalNumberOfMissionaries
      && s.cannibalsOnSourceBank <= x.cannibalsOnSourceBank
      && x.cannibalsOnSourceBank - s.cannibalsOnSourceBank <= s.parameters.boatCapacity
      && x.cannibalsOnSourceBank <= s.parameters.totalNumberOfCannibals
      && 1 <= (x.missionariesOnSourceBank - s.missionariesOnSourceBank)
              + (x.cannibalsOnSourceBank - s.cannibalsOnSourceBank)
  {
    CrossingsMembers(s, TargetRiverBank, x);
  }

  /**
   * With three missionaries, three cannibals and a two-seat boat, four people
   * come back from the target bank in one crossing.
   */
  lemma ReturnTripMayExceedCapacity()
    ensures var p := GameParameters(3, 3, 2);
      var s := StateNode(0, 0, p, TargetRiverBank);
      var x := StateNode(2, 2, p, SourceRiverBank);
      && x in Neighbors(s)
      && (x.missionariesOnSourceBank - s.missionariesOnSourceBank)
         + (x.cannibalsOnSourceBank - s.cannibalsOnSourceBank) > p.boatCapacity
  {
    var p := GameParameters(3, 3, 2);
    var s := StateNode(0, 0, p, TargetRiverBank);
    var x := StateNode(2, 2, p, SourceRiverBank);
    assert !Outnumbered(MissionariesOn(x, SourceRiverBank), CannibalsOn(x, SourceRiverBank));
    assert !Outnumbered(MissionariesOn(x, TargetRiverBank), CannibalsOn(x, TargetRiverBank));
    NeighborsFromTarget(s, x);
  }

  /**
   * Every neighbour is safe, has the boat on the other bank (so it is never
   * the state itself) and belongs to the same instance.
   */
  lemma NeighborIsSafeAndCrosses(s: StateNode, x: StateNode)
    requires x in Neighbors(s)
    ensures !IsTerminalState(x)
    ensures x.boatLocation == Opposite(s.boatLocation) && x != s
    ensures x.parameters == s.parameters
  {
    CrossingsMembers(s, s.boatLocation, x);
  }

  /** Counts on both banks stay within `0..total` once they start there. */
  predicate CountsInRange(s: StateNode)
  {
    && 0 <= s.missionariesOnSourceBank <= s.parameters.totalNumberOfMissionaries
    && 0 <= s.cannibalsOnSourceBank <= s.parameters.totalNumberOfCannibals
  }

  lemma NeighborCountsInRange(s: StateNode, x: StateNode)
    requires CountsInRange(s) && x in Neighbors(s)
    ensures CountsInRange(x)
  {
    if s.boatLocation == SourceRiverBank {
      NeighborsFromSource(s, x);
    } else {
      NeighborsFromTarget(s, x);
    }
  }

  // ---------------------------------------------------------------------------
  // Order of the generated neighbours
  // ---------------------------------------------------------------------------

  /** Load of `x` comes before load of `y`: fewer missionaries, or as many and fewer cannibals. */
  predicate LoadBefore(s: StateNode, from: BoatLocation, x: StateNode, y: StateNode)
  {
    || MovedMissionaries(s, from, x) < MovedMissionaries(s, from, y)
    || (MovedMissionaries(s, from, x) == MovedMissionaries(s, from, y)
        && MovedCannibals(s, from, x) < MovedCannibals(s, from, y))
  }

  predicate LoadSorted(s: StateNode, from: BoatLocation, xs: seq<StateNode>)
  {
    forall i, j :: 0 <= i < j < |xs| ==> LoadBefore(s, from, xs[i], xs[j])
  }

  lemma LoadSortedConcat(s: StateNode, from: BoatLocation, xs: seq<StateNode>, ys: seq<StateNode>)
    requires LoadSorted(s, from, xs) && LoadSorted(s, from, ys)
    requires forall x, y :: x in xs && y in ys ==> LoadBefore(s, from, x, y)
    ensures LoadSorted(s, from, xs + ys)
  {
    var zs := xs + ys;
    forall i, j | 0 <= i < j < |zs| ensures LoadBefore(s, from, zs[i], zs[j]) {
      if j < |xs| {
        assert zs[i] == xs[i] && zs[j] == xs[j];
      } else if i >= |xs| {
        assert zs[i] == ys[i - |xs|] && zs[j] == ys[j - |xs|];
      } else {
        assert zs[i] in xs && zs[j] in ys;
      }
    }
  }

  lemma {:induction false} CannibalPrefixSorted(s: StateNode, from: BoatLocation, m: int, c: int)
    ensures LoadSorted(s, from, CannibalPrefix(s, from, m, c))
    decreases c - FirstCannibalCount(m)
  {
    if c > FirstCannibalCount(m) {
      var done := CannibalPrefix(s, from, m, c - 1);
      var last := KeepSafe(Crossing(s, from, m, c - 1));
      CannibalPrefixSorted(s, from, m, c - 1);
      CrossingMoves(s, from, m, c - 1);
      forall x, y | x in done && y in last ensures LoadBefore(s, from, x, y) {
        CannibalPrefixMembers(s, from, m, c - 1, x);
      }
      LoadSortedConcat(s, from, done, last);
    }
  }

  lemma {:induction false} MissionaryPrefixSorted(s: StateNode, from: BoatLocation, m: int)
    ensures LoadSorted(s, from, MissionaryPrefix(s, from, m))
    decreases m
  {
    if m > 0 {
      var cEnd := CannibalLimit(s, from, m - 1) + 1;
      var done := MissionaryPrefix(s, from, m - 1);
      var last := CannibalPrefix(s, from, m - 1, cEnd);
      MissionaryPrefixSorted(s, from, m - 1);
      CannibalPrefixSorted(s, from, m - 1, cEnd);
      forall x, y | x in done && y in last ensures LoadBefore(s, from, x, y) {
        MissionaryPrefixMembers(s, from, m - 1, x);
        CannibalPrefixMembers(s, from, m - 1, cEnd, y);
      }
      LoadSortedConcat(s, from, done, last);
    }
  }

  /**
   * Neighbours come out with the number of missionaries aboard ascending and,
   * for equal missionaries, the number of cannibals ascending; strictly, so no
   * state is listed twice.
   */
  lemma NeighborsOrderedWithoutDuplicates(s: StateNode)
    ensures LoadSorted(s, s.boatLocation, Neighbors(s))
    ensures forall i, j :: 0 <= i < j < |Neighbors(s)| ==> Neighbors(s)[i] != Neighbors(s)[j]
  {
    MissionaryPrefixSorted(s, s.boatLocation, Max(MissionaryLimit(s, s.boatLocation) + 1, 0));
  }

  // ---------------------------------------------------------------------------
  // The two loop methods
  // ---------------------------------------------------------------------------

  /** One more turn of the inner loop appends one candidate, if it is safe. */
  lemma CannibalPrefixStep(s: StateNode, from: BoatLocation, m: int, c: int)
    requires c >= FirstCannibalCount(m)
    ensures CannibalPrefix(s, from, m, c + 1) == CannibalPrefix(s, from, m, c) + KeepSafe(Crossing(s, from, m, c))
  {
  }

  /** The inner loop run out: the outer loop's list has grown by the whole cannibal run for `m`. */
  lemma MissionaryPrefixStep(s: StateNode, from: BoatLocation, m: int, c: int)
    requires m >= 0 && c == Max(CannibalLimit(s, from, m) + 1, FirstCannibalCount(m))
    ensures MissionaryPrefix(s, from, m + 1) == MissionaryPrefix(s, from, m) + CannibalPrefix(s, from, m, c)
  {
  }

  /** `trySendFromSource`: two nested loops appending the safe candidates. */
  method TrySendFromSource(s: StateNode) returns (neighborStates: seq<StateNode>)
    ensures neighborStates == Crossings(s, SourceRiverBank)
  {
    neighborStates := [];
    var boatCapacity := s.parameters.boatCapacity;
    var availableMissionaries := Min(s.missionariesOnSourceBank, boatCapacity);
    var m := 0;
    while m <= availableMissionaries
      invariant availableMissionaries == MissionaryLimit(s, SourceRiverBank)
      invariant 0 <= m <= Max(availableMissionaries + 1, 0)
      invariant neighborStates == MissionaryPrefix(s, SourceRiverBank, m)
    {
      var c := if m == 0 then 1 else 0;
      var availableCannibals := Min(s.cannibalsOnSourceBank, boatCapacity - m);
      while c <= availableCannibals
        invariant availableCannibals == CannibalLimit(s, SourceRiverBank, m)
        invariant FirstCannibalCount(m) <= c <= Max(availableCannibals + 1, FirstCannibalCount(m))
        invariant neighborStates == MissionaryPrefix(s, SourceRiverBank, m) + CannibalPrefix(s, SourceRiverBank, m, c)
      {
        var stateNode := StateNode(s.missionariesOnSourceBank - m, s.cannibalsOnSourceBank - c,
                                   s.parameters, TargetRiverBank);
        assert stateNode == Crossing(s, SourceRiverBank, m, c);
        CannibalPrefixStep(s, SourceRiverBank, m, c);
        if !IsTerminalState(stateNode) {
          neighborStates := neighborStates + [stateNode];
        }
        c := c + 1;
      }
      MissionaryPrefixStep(s, SourceRiverBank, m, c);
      m := m + 1;
    }
  }

  /**
   * `trySendFromTarget`: the same loops from the target bank; the inner loop
   * runs to `availableCannibals` whatever `m` is.
   */
  method TrySendFromTarget(s: StateNode) returns (neighborStates: seq<StateNode>)
    ensures neighborStates == Crossings(s, TargetRiverBank)
  {
    neighborStates := [];
    var boatCapacity := s.parameters.boatCapacity;
    var availableMissionaries :=
      Min(boatCapacity, s.parameters.totalNumberOfMissionaries - s.missionariesOnSourceBank);
    var availableCannibals :=
      Min(boatCapacity, s.parameters.totalNumberOfCannibals - s.cannibalsOnSourceBank);
    var m := 0;
    while m <= availableMissionaries
      invariant availableMissionaries == MissionaryLimit(s, TargetRiverBank)
      invariant availableCannibals == CannibalLimit(s, TargetRiverBank, m)
      invariant 0 <= m <= Max(availableMissionaries + 1, 0)
      invariant neighborStates == MissionaryPrefix(s, TargetRiverBank, m)
    {
      var c := if m == 0 then 1 else 0;
      while c <= availableCannibals
        invariant FirstCannibalCount(m) <= c <= Max(availableCannibals + 1, FirstCannibalCount(m))
        invariant neighborStates == MissionaryPrefix(s, TargetRiverBank, m) + CannibalPrefix(s, TargetRiverBank, m, c)
      {
        var stateNode := StateNode(s.missionariesOnSourceBank + m, s.cannibalsOnSourceBank + c,
                                   s.parameters, SourceRiverBank);
        assert stateNode == Crossing(s, TargetRiverBank, m, c);
        CannibalPrefixStep(s, TargetRiverBank, m, c);
        if !IsTerminalState(stateNode) {
          neighborStates := neighborStates + [stateNode];
        }
        c := c + 1;
      }
      MissionaryPrefixStep(s, TargetRiverBank, m, c);
      m := m + 1;
    }
  }

  /** `buildNeighborsList`: picks the loop for the bank the boat is at. */
  method BuildNeighborsList(s: StateNode) returns (r: seq<StateNode>)
    ensures r == Neighbors(s)
    ensures forall x :: x in r ==> !IsTerminalState(x) && x.boatLocation != s.boatLocation
  {
    match s.boatLocation {
      case SourceRiverBank =>
        r := TrySendFromSource(s);
      case TargetRiverBank =>
        r := TrySendFromTarget(s);
    }
    forall x | x in r ensures !IsTerminalState(x) && x.boatLocation != s.boatLocation {
      NeighborIsSafeAndCrosses(s, x);
    }
  }

  /**
   * A `StateNode` object: its final fields and the `neighbors` field that
   * `getNeighbors` fills on first use.
   */
  class StateNodeObject {
    const state: StateNode
    var neighbors: Option<seq<StateNode>>

    /** The cache, once filled, holds the neighbours of the state. */
    ghost predicate Valid()
      reads this
    {
      neighbors.Some? ==> neighbors.value == Neighbors(state)
    }

    constructor (s: StateNode)
      ensures state == s && neighbors == None && Valid()
    {
      state := s;
      neighbors := None;
    }

    /**
     * `getNeighbors`: builds the list on the first call and returns the
     * cached list afterwards; either way the result depends only on the four
     * fields of the state.
     */
    method GetNeighbors() returns (r: seq<StateNode>)
      requires Valid()
      modifies this
      ensures Valid() && neighbors == Some(r)
      ensures r == Neighbors(state)
      ensures old(neighbors).Some? ==> r == old(neighbors).value
    {
      if neighbors.None? {
        var built := BuildNeighborsList(state);
        neighbors := Some(built);
      }
      r := neighbors.value;
    }
  }

  // ---------------------------------------------------------------------------
  // equals
  // ---------------------------------------------------------------------------

  /** Field-by-field comparison, the parameters through their own `equals`. */
  predicate SameFields(s: StateNode, t: StateNode)
  {
    && s.missionariesOnSourceBank == t.missionariesOnSourceBank
    && s.cannibalsOnSourceBank == t.cannibalsOnSourceBank
    && Parameters.Equals(s.parameters, Instance(t.parameters))
    && s.boatLocation == t.boatLocation
  }

  /**
   * `StateNode.equals` as written: the argument is cast to `StateNode` before
   * its class is compared, so an object of another class raises
   * `ClassCastException` and the class test can never fail.
   */
  function EqualsAsWritten(s: StateNode, o: Ref<StateNode>): (r: Result<bool>)
    ensures o.OtherClass? <==> r.Err?
    ensures r.Err? ==> r.error == ClassCastException
    ensures r.Ok? ==> (r.value <==> o.Instance? && o.value == s)
  {
    match o
    case Null => Ok(false)
    case OtherClass => Err(ClassCastException)
    case Instance(t) => Ok(SameFields(s, t))
  }

  /** Comparing a state with any object of another class throws. */
  lemma EqualsAsWrittenThrowsForOtherClass(s: StateNode)
    ensures EqualsAsWritten(s, OtherClass) == Err(ClassCastException)
  {
  }

  /** `equals` as the class test intends it: false for another class. */
  function Equals(s: StateNode, o: Ref<StateNode>): (r: bool)
    ensures r <==> o.Instance? && o.value == s
  {
    match o
    case Null => false
    case OtherClass => false
    case Instance(t) => SameFields(s, t)
  }

  /** On `null` and on states the corrected `equals` agrees with the code. */
  lemma EqualsAgreesWhereNothingThrows(s: StateNode, o: Ref<StateNode>)
    requires !o.OtherClass?
    ensures EqualsAsWritten(s, o) == Ok(Equals(s, o))
  {
  }
}
