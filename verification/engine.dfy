/**
  The session as the drivers see it: a bucket's engine-resident cache, the link ranges
  that fold the previous run's rows into it, and the two cache copies of a linked decode.
 */
module Engine {
  import opened DecoderModel
  import opened IoLink
  import opened GraphPass

  /** A linked pair of one bucket: the resident past, and the last run's present whose fold may still pend. */
  datatype Resident = Resident(past: seq<Row>, present: seq<Row>)

  /** The row block the armed ranges copy at the start of the next run; a negative slot arms nothing. */
  datatype Arm = Arm(source: nat, slot: int, rows: int)

  datatype Binding = Keep | Bind(rows: seq<Row>)

  /** The arm passes the link validation. */
  predicate Armable(r: Resident, a: Arm) {
    a.slot >= 0 && a.rows > 0 ==> a.source + a.rows <= |r.present| && a.slot + a.rows <= |r.past|
  }

  function Folded(r: Resident, a: Arm): (past: seq<Row>)
    requires Armable(r, a)
    ensures |past| == |r.past|
  {
    FoldRows(r.past, r.present, a.source, a.slot, a.rows)
  }

  /** The resident past a run computes on: the bound bytes if any, with the armed copies on top. */
  function Base(r: Resident, bind: Binding, a: Arm): (past: seq<Row>)
    requires bind.Bind? ==> |bind.rows| == |r.past|
    requires Armable(r, a)
    ensures |past| == |r.past|
  {
    Folded(if bind.Bind? then r.(past := bind.rows) else r, a)
  }

  /** A session's answers to the requests made of it, in order: granted or refused. */
  type Answers = nat -> bool

  /** Every request from number `from` up to `to` was granted. */
  ghost predicate Granted(answers: Answers, from: nat, to: nat) {
    forall k | from <= k < to :: answers(k)
  }

  /**
    One linked run.  A refused run computes nothing, though its bindings and copies may
    already have been applied.  The rows before the produced ones in a present output are
    whatever its convention puts there.
   */
  method Run(granted: bool, m: Model, r: Resident, bind: Binding, a: Arm, ids: seq<Token>, pos: seq<nat>, mask: seq<int>, presRows: nat)
    returns (after: Resident, outs: seq<Out>)
    requires bind.Bind? ==> |bind.rows| == |r.past|
    requires Armable(r, a)
    requires |ids| == |pos| && |mask| == |r.past| + |ids| && |ids| <= presRows
    ensures |after.past| == |r.past|
    ensures !granted ==> after.present == r.present && (after.past == r.past || after.past == Base(r, bind, a))
    ensures granted ==> && after.past == Base(r, bind, a) && outs == Forward(m, after.past, ids, pos, mask)
                        && |after.present| == presRows && after.present[presRows - |ids|..] == RowsOf(outs)
  {
    var base := Base(r, bind, a);
    if granted {
      outs := Forward(m, base, ids, pos, mask);
      after := Resident(base, seq(presRows - |ids|, _ => Row([])) + RowsOf(outs));
    } else {
      outs := [];
      var touched: bool := *;
      after := if touched then r.(past := base) else r;
    }
  }

  /** One unlinked run on bound host rows; the present output comes back with data. */
  method RunHost(m: Model, past: seq<Row>, ids: seq<Token>, pos: seq<nat>, mask: seq<int>, presRows: nat)
    returns (present: seq<Row>, outs: seq<Out>)
    requires |ids| == |pos| && |mask| == |past| + |ids| && |ids| <= presRows
    ensures outs == Forward(m, past, ids, pos, mask)
    ensures |present| == presRows && present[presRows - |ids|..] == RowsOf(outs)
  {
    outs := Forward(m, past, ids, pos, mask);
    present := seq(presRows - |ids|, _ => Row([])) + RowsOf(outs);
  }

  // ---- the two copies of the decode cache -------------------------------------------

  /** The host past buffers, the decode bucket's resident pair, and the flags that say which copy is true. */
  datatype Copies = Copies(host: seq<Row>, dec: Resident, linked: bool, dirty: bool, reseed: bool, pending: bool)

  ghost predicate Sized(v: Copies, C: nat) {
    C > 0 && |v.host| == C && |v.dec.past| == C && |v.dec.present| > 0
  }

  function PendingSlot(v: Copies, p: nat, C: nat): int {
    if v.pending then KvFoldSlot(p, C) else -1
  }

  /** The resident past with the last run's pending row: what a readback to the host leaves there. */
  function Materialized(v: Copies, p: nat, C: nat): (rows: seq<Row>)
    requires C > 0 && |v.dec.past| == C && |v.dec.present| > 0
    ensures |rows| == C
  {
    FoldRows(v.dec.past, v.dec.present, |v.dec.present| - 1, PendingSlot(v, p, C), 1)
  }

  /**
    One logical cache: dirty means the resident copy is true, a re-seed owed (or no
    links) means the host copy is, neither means both hold the history's rows.
   */
  ghost predicate Coherent(m: Model, C: nat, hist: seq<Token>, v: Copies)
    requires Sized(v, C)
  {
    && !(v.linked && v.dirty && v.reseed)
    && (!v.linked || v.reseed || !v.dirty ==> Holds(v.host, Live(m, C, hist)))
    && (v.linked && !v.reseed ==> Holds(Materialized(v, |hist|, C), Live(m, C, hist)))
  }
}
