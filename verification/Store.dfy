/**
 The `spassword` table behind SQLAlchemy: a reference is a snapshot of one row with
 the set of columns assigned since it was read, and a commit writes only those.
 */
module Store {
  import opened Model

  datatype Column =
    | CreationTime | LoginAttempts | LastLoginAttemptTime | Extra
    | Sndfa | SndfaLast | SndfaCode | SndfaTimeCode | SndfaEmail | SndfaEmailCode

  /** `row` with the dirty columns taken from `mine`. */
  function Merge(row: Record, mine: Record, dirty: set<Column>): Record {
    row.(creationTime := if CreationTime in dirty then mine.creationTime else row.creationTime,
         loginAttempts := if LoginAttempts in dirty then mine.loginAttempts else row.loginAttempts,
         lastLoginAttemptTime :=
           if LastLoginAttemptTime in dirty then mine.lastLoginAttemptTime else row.lastLoginAttemptTime,
         extra := if Extra in dirty then mine.extra else row.extra,
         sndfa := if Sndfa in dirty then mine.sndfa else row.sndfa,
         sndfaLast := if SndfaLast in dirty then mine.sndfaLast else row.sndfaLast,
         sndfaCode := if SndfaCode in dirty then mine.sndfaCode else row.sndfaCode,
         sndfaTimeCode := if SndfaTimeCode in dirty then mine.sndfaTimeCode else row.sndfaTimeCode,
         sndfaEmail := if SndfaEmail in dirty then mine.sndfaEmail else row.sndfaEmail,
         sndfaEmailCode := if SndfaEmailCode in dirty then mine.sndfaEmailCode else row.sndfaEmailCode)
  }

  /** x and y agree on the given columns. */
  predicate SameOn(x: Record, y: Record, columns: set<Column>) {
    Merge(x, y, columns) == x
  }

  /** Two references to one row that touched different columns: whichever commits
      last, both writes are in the row and every other column is untouched. */
  lemma DisjointCommits(row: Record, a: Record, da: set<Column>, b: Record, db: set<Column>)
    requires da !! db
    ensures Merge(Merge(row, a, da), b, db) == Merge(Merge(row, b, db), a, da)
    ensures SameOn(Merge(Merge(row, a, da), b, db), a, da)
    ensures SameOn(Merge(Merge(row, a, da), b, db), b, db)
    ensures forall c :: c !in da + db ==> SameOn(Merge(Merge(row, a, da), b, db), row, {c})
  {
    forall c | c !in da + db
      ensures SameOn(Merge(Merge(row, a, da), b, db), row, {c})
    {
    }
  }

  class Ref {
    const userId: UserId
    var row: Record
    var dirty: set<Column>

    constructor (userId: UserId, row: Record)
      ensures this.userId == userId && this.row == row && dirty == {}
    {
      this.userId, this.row, this.dirty := userId, row, {};
    }
  }

  class Database {
    var rows: Table

    constructor ()
      ensures rows == map[]
    {
      rows := map[];
    }

    method GetSpasswordSession(userId: UserId) returns (ref: Ref?)
      ensures ref == null <==> userId !in rows
      ensures ref != null ==> fresh(ref) && ref.userId == userId && ref.row == rows[userId] && ref.dirty == {}
    {
      if userId in rows {
        ref := new Ref(userId, rows[userId]);
      } else {
        ref := null;
      }
    }

    method Commit(ref: Ref)
      requires ref.userId in rows
      modifies this
      ensures rows == old(rows)[ref.userId := Merge(old(rows)[ref.userId], ref.row, ref.dirty)]
    {
      rows := rows[ref.userId := Merge(rows[ref.userId], ref.row, ref.dirty)];
    }

    method Insert(userId: UserId, row: Record)
      requires userId !in rows
      modifies this
      ensures rows == old(rows)[userId := row]
    {
      rows := rows[userId := row];
    }

    method Delete(ref: Ref)
      modifies this
      ensures rows == old(rows) - {ref.userId}
    {
      rows := rows - {ref.userId};
    }
  }
}
