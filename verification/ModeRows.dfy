/** The mode-range evaluator: rows of AUX ranges and mode links, folded over two bit masks in
    two passes and resolved by XOR, against the rule it implements. */
module ModeRows {
  import opened FlightModel

  const LOGIC_AND: nat := 1
  const AXIS_AUX_1: nat := 4
  const AXIS_COUNT: nat := 16

  /** One configured row.  A zero `linkId` means that the row is an AUX range. */
  datatype Row = Row(id: nat, ch: nat, min: int, max: int, logicMode: nat, linkId: nat)

  /** The receiver's channels as the evaluator sees them. */
  datatype Sample = Sample(us: seq<int>, channelCount: nat, rxLoss: bool)
  {
    predicate Valid() { |us| == AXIS_COUNT }
  }

  // ----- The rule -----

  /** What one evaluated row says about a mode: under OR or AND logic, active or not. */
  datatype Vote = Vote(mode: nat, all: bool, active: bool)

  /** Some OR row is active, or there are AND rows and all of them are active. */
  predicate Resolved(votes: set<Vote>, m: nat) {
    Vote(m, false, true) in votes ||
    (Vote(m, true, true) in votes && Vote(m, true, false) !in votes)
  }

  predicate ChannelAvailable(s: Sample, ch: nat) {
    ch < AXIS_COUNT && (if s.channelCount > 0 then ch < s.channelCount else !s.rxLoss)
  }

  predicate IsPhysical(s: Sample, r: Row) {
    r.id < MODE_COUNT && r.linkId == 0 && r.min < r.max &&
    AXIS_AUX_1 <= r.ch < AXIS_COUNT && ChannelAvailable(s, r.ch)
  }

  predicate InRange(s: Sample, r: Row)
    requires s.Valid() && r.ch < AXIS_COUNT
  {
    r.min < s.us[r.ch] < r.max
  }

  predicate HasLinkedRow(rows: seq<Row>, mode: nat) {
    mode < MODE_COUNT && exists r :: r in rows && r.id == mode && r.linkId != 0
  }

  /** Links to ARM, to the row's own mode, out of range, or to a linked mode are ignored. */
  predicate LinkValid(rows: seq<Row>, r: Row) {
    r.linkId != 0 && r.id < MODE_COUNT && r.id != MODE_ARMED &&
    r.linkId < MODE_COUNT && r.linkId != r.id && !HasLinkedRow(rows, r.linkId)
  }

  ghost function PhysicalVotes(rows: seq<Row>, s: Sample): set<Vote>
    requires s.Valid()
  {
    set r | r in rows && IsPhysical(s, r) :: Vote(r.id, r.logicMode == LOGIC_AND, InRange(s, r))
  }

  /** The votes of link rows `some`, which are among the table `rows`. */
  ghost function LinkVotes(rows: seq<Row>, some: seq<Row>, physical: set<Vote>): set<Vote> {
    set r | r in some && LinkValid(rows, r) :: Vote(r.id, r.logicMode == LOGIC_AND, Resolved(physical, r.linkId))
  }

  ghost function Votes(rows: seq<Row>, s: Sample): set<Vote>
    requires s.Valid()
  {
    PhysicalVotes(rows, s) + LinkVotes(rows, rows, PhysicalVotes(rows, s))
  }

  /** The modes that the rows request. */
  ghost function Requested(rows: seq<Row>, s: Sample): Mask
    requires s.Valid()
  {
    set m: nat | m < MODE_COUNT && Resolved(Votes(rows, s), m)
  }

  // ----- Properties of the rule -----

  /** The rule sees the table as a set: neither order nor repetition of rows matters. */
  lemma OrderIndependent(rows: seq<Row>, rows': seq<Row>, s: Sample)
    requires s.Valid()
    requires forall r :: r in rows <==> r in rows'
    ensures Requested(rows, s) == Requested(rows', s)
  {
    assert PhysicalVotes(rows, s) == PhysicalVotes(rows', s);
    forall r ensures LinkValid(rows, r) == LinkValid(rows', r) {
      assert HasLinkedRow(rows, r.linkId) == HasLinkedRow(rows', r.linkId);
    }
    var p := PhysicalVotes(rows, s);
    assert LinkVotes(rows, rows, p) == LinkVotes(rows', rows', p);
  }

  /** A valid link reads the source mode's final value, although only AUX rows were folded then. */
  lemma LinkReadsFinalValue(rows: seq<Row>, s: Sample, r: Row)
    requires s.Valid()
    requires r in rows && LinkValid(rows, r)
    ensures Resolved(PhysicalVotes(rows, s), r.linkId) <==> r.linkId in Requested(rows, s)
  {}

  /** The arm request depends on AUX rows alone. */
  lemma ArmingIgnoresLinks(rows: seq<Row>, s: Sample)
    requires s.Valid()
    ensures MODE_ARMED in Requested(rows, s) <==> Resolved(PhysicalVotes(rows, s), MODE_ARMED)
  {}

  /** A receiver that never appeared requests nothing, whatever the stale channel values. */
  lemma AbsentReceiverRequestsNothing(rows: seq<Row>, s: Sample)
    requires s.Valid() && s.channelCount == 0 && s.rxLoss
    ensures Requested(rows, s) == {}
  {}

  // ----- The rule in terms of the rows -----

  /** The row counts: an AUX row (channels 4 to 15) with a range and a channel that the receiver has, or a link
      to another of the 15 modes, which is not linked itself; a link never arms. */
  predicate Counts(rows: seq<Row>, s: Sample, r: Row) {
    r.id < 15 &&
    if r.linkId == 0 then
      r.min < r.max && 4 <= r.ch < 16 && (if s.channelCount == 0 then !s.rxLoss else r.ch < s.channelCount)
    else
      r.id != 0 && r.linkId < 15 && r.linkId != r.id && forall q :: q in rows && q.id == r.linkId ==> q.linkId == 0
  }

  /** The row is on: the channel strictly inside the range, or the linked mode requested. */
  ghost predicate On(rows: seq<Row>, s: Sample, r: Row)
    requires s.Valid()
  {
    if r.linkId == 0 then r.ch < 16 && r.min < s.us[r.ch] < r.max else r.linkId in Requested(rows, s)
  }

  /** Row `r` counts for mode `m`, with AND logic (1) or any other. */
  ghost predicate RowOf(rows: seq<Row>, s: Sample, m: nat, all: bool, r: Row) {
    r in rows && r.id == m && Counts(rows, s, r) && (r.logicMode == 1) == all
  }

  /** A mode is requested if and only if one of its OR rows is on, or it has AND rows and all of them are. */
  lemma RequestedExactly(rows: seq<Row>, s: Sample, m: nat)
    requires s.Valid()
    ensures m in Requested(rows, s) <==>
      m < 15 &&
      ((exists r :: RowOf(rows, s, m, false, r) && On(rows, s, r)) ||
       ((exists r :: RowOf(rows, s, m, true, r)) && forall r :: RowOf(rows, s, m, true, r) ==> On(rows, s, r)))
  {
    hide Requested, Votes, Counts, On;
    VoteOfRows(rows, s, m, false, true);
    VoteOfRows(rows, s, m, true, true);
    VoteOfRows(rows, s, m, true, false);
    RequestedIs(rows, s, m);
    if r :| RowOf(rows, s, m, true, r) {}
  }

  lemma RequestedIs(rows: seq<Row>, s: Sample, m: nat)
    requires s.Valid()
    ensures m in Requested(rows, s) <==> m < 15 && Resolved(Votes(rows, s), m)
  {}

  /** A vote is cast by exactly the rows that count and say so. */
  lemma VoteOfRows(rows: seq<Row>, s: Sample, m: nat, all: bool, active: bool)
    requires s.Valid()
    ensures Vote(m, all, active) in Votes(rows, s) <==> exists r :: RowOf(rows, s, m, all, r) && On(rows, s, r) == active
  {
    hide Requested, Resolved;
    var v := Vote(m, all, active);
    var p := PhysicalVotes(rows, s);
    if r :| RowOf(rows, s, m, all, r) && On(rows, s, r) == active {
      RowVotes(rows, s, r);
      assert v == Vote(r.id, r.logicMode == LOGIC_AND, active);
    }
    if v in p {
      var r :| r in rows && IsPhysical(s, r) && v == Vote(r.id, r.logicMode == LOGIC_AND, InRange(s, r));
      assert RowOf(rows, s, m, all, r) && On(rows, s, r) == active;
    }
    if v in LinkVotes(rows, rows, p) {
      var r :| r in rows && LinkValid(rows, r) && v == Vote(r.id, r.logicMode == LOGIC_AND, Resolved(p, r.linkId));
      LinkReadsFinalValue(rows, s, r);
      assert RowOf(rows, s, m, all, r) && On(rows, s, r) == active;
    }
  }

  lemma RowVotes(rows: seq<Row>, s: Sample, r: Row)
    requires s.Valid() && r in rows && Counts(rows, s, r)
    ensures Vote(r.id, r.logicMode == LOGIC_AND, On(rows, s, r)) in Votes(rows, s)
  {
    hide Requested, Resolved;
    if r.linkId == 0 {
      assert IsPhysical(s, r) && InRange(s, r) == On(rows, s, r);
    } else {
      assert LinkValid(rows, r);
      LinkReadsFinalValue(rows, s, r);
    }
  }

  // ----- The two-pass fold -----

  /** The two masks encode, per mode, what the votes so far amount to. */
  ghost predicate MasksHold(andMask: Mask, newMask: Mask, votes: set<Vote>) {
    forall m: nat ::
      var any := Vote(m, false, true) in votes;
      var lost := Vote(m, true, false) in votes;
      (m in andMask <==> !any && (lost || Vote(m, true, true) in votes)) &&
      (m in newMask <==> any || lost)
  }

  /** XOR of the masks is the rule. */
  lemma XorResolves(andMask: Mask, newMask: Mask, votes: set<Vote>, m: nat)
    requires MasksHold(andMask, newMask, votes)
    ensures (m in andMask) != (m in newMask) <==> Resolved(votes, m)
  {}

  method UpdateMasksForCondition(r: Row, active: bool, andMask: Mask, newMask: Mask, ghost votes: set<Vote>)
    returns (andMask': Mask, newMask': Mask)
    requires r.id < MODE_COUNT
    requires MasksHold(andMask, newMask, votes)
    ensures MasksHold(andMask', newMask', votes + {Vote(r.id, r.logicMode == LOGIC_AND, active)})
  {
    andMask', newMask' := andMask, newMask;
    var bit := {r.id};
    if r.id in andMask || r.id !in newMask {
      if r.logicMode != LOGIC_AND {
        if active {
          andMask' := andMask' - bit;
          newMask' := newMask' + bit;
        }
      } else {
        andMask' := andMask' + bit;
        if !active {
          newMask' := newMask' + bit;
        }
      }
    }
  }

  method ModeHasLinkedCondition(rows: seq<Row>, mode: nat) returns (linked: bool)
    ensures linked <==> HasLinkedRow(rows, mode)
  {
    if mode >= MODE_COUNT {
      return false;
    }
    for i := 0 to |rows|
      invariant forall j :: 0 <= j < i ==> !(rows[j].id == mode && rows[j].linkId != 0)
    {
      if rows[i].id == mode && rows[i].linkId != 0 {
        return true;
      }
    }
    return false;
  }

  method ModeConditionLinkValid(rows: seq<Row>, r: Row) returns (valid: bool)
    ensures valid <==> LinkValid(rows, r)
  {
    if r.linkId == 0 || r.id >= MODE_COUNT || r.id == MODE_ARMED || r.linkId >= MODE_COUNT || r.linkId == r.id {
      return false;
    }
    var linked := ModeHasLinkedCondition(rows, r.linkId);
    return !linked;
  }

  lemma PhysicalVotesStep(rows: seq<Row>, i: nat, s: Sample)
    requires s.Valid() && i < |rows|
    ensures PhysicalVotes(rows[..i + 1], s) == PhysicalVotes(rows[..i], s) +
      (if IsPhysical(s, rows[i]) then {Vote(rows[i].id, rows[i].logicMode == LOGIC_AND, InRange(s, rows[i]))} else {})
  {}

  lemma LinkVotesStep(rows: seq<Row>, i: nat, p: set<Vote>)
    requires i < |rows|
    ensures LinkVotes(rows, rows[..i + 1], p) == LinkVotes(rows, rows[..i], p) +
      (if LinkValid(rows, rows[i])
       then {Vote(rows[i].id, rows[i].logicMode == LOGIC_AND, Resolved(p, rows[i].linkId))} else {})
  {}

  /** Link rows do not vote on the source of a valid link. */
  lemma SourceHasNoLinkVotes(rows: seq<Row>, i: nat, p: set<Vote>, r: Row)
    requires i <= |rows| && LinkValid(rows, r)
    ensures forall v :: v in LinkVotes(rows, rows[..i], p) ==> v.mode != r.linkId
  {}

  /** The evaluator: pass 1 folds AUX ranges, pass 2 folds links, XOR resolves. */
  method Evaluate(rows: seq<Row>, s: Sample) returns (requested: Mask)
    requires s.Valid()
    ensures requested == Requested(rows, s)
  {
    var newMask: Mask := {};
    var andMask: Mask := {};
    for i := 0 to |rows|
      invariant MasksHold(andMask, newMask, PhysicalVotes(rows[..i], s))
    {
      var c := rows[i];
      PhysicalVotesStep(rows, i, s);
      if c.id >= MODE_COUNT || c.linkId != 0 { continue; }
      if c.min >= c.max { continue; }
      if c.ch < AXIS_AUX_1 || c.ch >= AXIS_COUNT { continue; }
      if !ChannelAvailable(s, c.ch) { continue; }
      var active := c.min < s.us[c.ch] < c.max;
      andMask, newMask := UpdateMasksForCondition(c, active, andMask, newMask, PhysicalVotes(rows[..i], s));
    }
    ghost var p := PhysicalVotes(rows, s);
    assert rows[..|rows|] == rows;
    for i := 0 to |rows|
      invariant MasksHold(andMask, newMask, p + LinkVotes(rows, rows[..i], p))
    {
      var c := rows[i];
      LinkVotesStep(rows, i, p);
      var valid := ModeConditionLinkValid(rows, c);
      if !valid { continue; }
      ghost var votes := p + LinkVotes(rows, rows[..i], p);
      SourceHasNoLinkVotes(rows, i, p, c);
      XorResolves(andMask, newMask, votes, c.linkId);
      var linkedModeActive := (c.linkId in andMask) != (c.linkId in newMask);
      andMask, newMask := UpdateMasksForCondition(c, linkedModeActive, andMask, newMask, votes);
      assert votes + {Vote(c.id, c.logicMode == LOGIC_AND, linkedModeActive)} == p + LinkVotes(rows, rows[..i + 1], p);
    }
    requested := (newMask - andMask) + (andMask - newMask);
    assert p + LinkVotes(rows, rows[..|rows|], p) == Votes(rows, s);
    forall m: nat ensures m in requested <==> m in Requested(rows, s) {
      XorResolves(andMask, newMask, Votes(rows, s), m);
      VotesInRange(rows, s, m);
    }
  }

  /** No row votes on a mode out of range. */
  lemma VotesInRange(rows: seq<Row>, s: Sample, m: nat)
    requires s.Valid()
    ensures Resolved(Votes(rows, s), m) ==> m < MODE_COUNT
  {}
}
