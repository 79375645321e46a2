/** The approvals table: pending rows are created, and each leaves pending by one conditional update. */
module ApprovalStore {
  import opened Prelude
  import opened Json

  datatype ApprovalState = Pending | Allowed | Denied | Expired

  /** Row identity; the source draws a fresh UUID for every row. */
  type ApprovalId = nat

  datatype Approval = Approval(tool: string, args: Value, state: ApprovalState)

  type Table = map<ApprovalId, Approval>

  predicate IsPending(rows: Table, id: ApprovalId)
  {
    id in rows && rows[id].state == Pending
  }

  /** `UPDATE ... SET state = ? WHERE id = ? AND state = 'pending'`. */
  function Swapped(rows: Table, id: ApprovalId, state: ApprovalState): Table
  {
    if IsPending(rows, id) then rows[id := rows[id].(state := state)] else rows
  }

  /** What every approval operation keeps: rows stay, their request stays, and a decided row is final. */
  ghost predicate Evolves(before: Table, after: Table)
  {
    forall id | id in before ::
      && id in after
      && after[id].tool == before[id].tool
      && after[id].args == before[id].args
      && (before[id].state != Pending ==> after[id].state == before[id].state)
  }

  class ApprovalTable {
    var rows: Table

    constructor ()
      ensures rows == map[]
    {
      rows := map[];
    }

    /** Insert a pending row under a fresh id. */
    method Create(id: ApprovalId, tool: string, args: Value)
      requires id !in rows
      modifies this
      ensures rows == old(rows)[id := Approval(tool, args, Pending)]
      ensures Evolves(old(rows), rows)
    {
      rows := rows[id := Approval(tool, args, Pending)];
    }

    /** Read one row; a missing id is not an error. */
    method Get(id: ApprovalId) returns (row: Option<Approval>)
      ensures row.Some? <==> id in rows
      ensures row.Some? ==> row.value == rows[id]
    {
      if id in rows {
        row := Some(rows[id]);
      } else {
        row := None;
      }
    }

    /** Conditional update: reports true exactly when this call moved the row out of pending. */
    method Decide(id: ApprovalId, state: ApprovalState) returns (decided: bool)
      requires state != Pending
      modifies this
      ensures decided <==> IsPending(old(rows), id)
      ensures rows == Swapped(old(rows), id, state)
      ensures decided ==> rows[id].state == state
      ensures Evolves(old(rows), rows)
    {
      decided := id in rows && rows[id].state == Pending;
      if decided {
        rows := rows[id := rows[id].(state := state)];
      }
    }
  }
}
