// The table basket_deposit: its rows in id order, sums and lists over them.

module Rows {
  import opened Model

  datatype RowStatus = Attached | Matched | Released

  datatype Row = Row(basketNo: Id, withdrawNo: Id, depositNo: Id, amount: int, status: RowStatus)

  // The attached rows an update statement selects.
  datatype Selection = OfBasket(basketNo: Id) | OfDeposit(depositNo: Id)

  predicate Selects(sel: Selection, row: Row)
  {
    row.status == Attached &&
    match sel
    case OfBasket(b) => row.basketNo == b
    case OfDeposit(d) => row.depositNo == d
  }

  function Restatus(rows: seq<Row>, sel: Selection, st: RowStatus): (r: seq<Row>)
    ensures |r| == |rows|
    ensures forall i :: 0 <= i < |rows| ==>
              r[i] == if Selects(sel, rows[i]) then rows[i].(status := st) else rows[i]
  {
    seq(|rows|, i requires 0 <= i < |rows| => if Selects(sel, rows[i]) then rows[i].(status := st) else rows[i])
  }

  predicate HasRow(rows: seq<Row>, depositNo: Id)
  {
    exists i :: 0 <= i < |rows| && rows[i].depositNo == depositNo
  }

  // A deposit stands in a basket with a given status.
  predicate Stands(rows: seq<Row>, depositNo: Id, basketNo: Id, st: RowStatus)
  {
    exists i :: 0 <= i < |rows| && rows[i].depositNo == depositNo
      && rows[i].basketNo == basketNo && rows[i].status == st
  }

  // Unique key on the deposit number.
  predicate Distinct(rows: seq<Row>)
  {
    forall i, j :: 0 <= i < j < |rows| ==> rows[i].depositNo != rows[j].depositNo
  }

  // The total of a basket's rows of one status.
  function Sum(rows: seq<Row>, basketNo: Id, st: RowStatus): int
  {
    if rows == [] then 0
    else
      var n := |rows| - 1;
      Sum(rows[..n], basketNo, st) +
      if rows[n].basketNo == basketNo && rows[n].status == st then rows[n].amount else 0
  }

  // The deposits of a basket that are attached or matched, in id order.
  function Active(rows: seq<Row>, basketNo: Id): seq<Id>
  {
    if rows == [] then []
    else
      var n := |rows| - 1;
      Active(rows[..n], basketNo) +
      if rows[n].basketNo == basketNo && rows[n].status != Released then [rows[n].depositNo] else []
  }

  // The deposits of a basket that are attached, in id order.
  function AttachedNos(rows: seq<Row>, basketNo: Id): seq<Id>
  {
    if rows == [] then []
    else
      var n := |rows| - 1;
      AttachedNos(rows[..n], basketNo) +
      if rows[n].basketNo == basketNo && rows[n].status == Attached then [rows[n].depositNo] else []
  }

  // The amount an update moves within one basket.
  function Moved(rows: seq<Row>, sel: Selection, basketNo: Id): int
  {
    if rows == [] then 0
    else
      var n := |rows| - 1;
      Moved(rows[..n], sel, basketNo) +
      if rows[n].basketNo == basketNo && Selects(sel, rows[n]) then rows[n].amount else 0
  }

  lemma Appended(rows: seq<Row>, row: Row, b: Id, st: RowStatus)
    ensures Sum(rows + [row], b, st) ==
            Sum(rows, b, st) + if row.basketNo == b && row.status == st then row.amount else 0
    ensures Active(rows + [row], b) ==
            Active(rows, b) + if row.basketNo == b && row.status != Released then [row.depositNo] else []
    ensures AttachedNos(rows + [row], b) ==
            AttachedNos(rows, b) + if row.basketNo == b && row.status == Attached then [row.depositNo] else []
  {
    assert (rows + [row])[..|rows|] == rows;
  }

  lemma {:induction false} RestatusSum(rows: seq<Row>, sel: Selection, st: RowStatus, b: Id, q: RowStatus)
    requires st != Attached
    ensures Sum(Restatus(rows, sel, st), b, q) == Sum(rows, b, q)
            + (if q == st then Moved(rows, sel, b) else 0)
            - (if q == Attached then Moved(rows, sel, b) else 0)
  {
    if rows != [] {
      var n := |rows| - 1;
      RestatusSum(rows[..n], sel, st, b, q);
      assert Restatus(rows, sel, st)[..n] == Restatus(rows[..n], sel, st);
    }
  }

  lemma {:induction false} MovedByBasket(rows: seq<Row>, b: Id, other: Id)
    ensures Moved(rows, OfBasket(b), other) == if other == b then Sum(rows, b, Attached) else 0
  {
    if rows != [] {
      MovedByBasket(rows[..|rows| - 1], b, other);
    }
  }

  lemma {:induction false} MovedByDeposit(rows: seq<Row>, d: Id, i: nat, b: Id)
    requires Distinct(rows) && i < |rows| && rows[i].depositNo == d && rows[i].status == Attached
    ensures Moved(rows, OfDeposit(d), b) == if rows[i].basketNo == b then rows[i].amount else 0
  {
    var n := |rows| - 1;
    if i < n {
      MovedByDeposit(rows[..n], d, i, b);
    } else {
      NothingMoved(rows[..n], d, b);
    }
  }

  lemma {:induction false} NothingMoved(rows: seq<Row>, d: Id, b: Id)
    requires !HasRow(rows, d)
    ensures Moved(rows, OfDeposit(d), b) == 0
  {
    if rows != [] {
      var n := |rows| - 1;
      assert rows[n].depositNo != d;
      assert forall i :: 0 <= i < n ==> rows[..n][i] == rows[i];
      NothingMoved(rows[..n], d, b);
    }
  }

  lemma RestatusLast(rows: seq<Row>, sel: Selection, st: RowStatus)
    requires rows != []
    ensures var before, last := rows[..|rows| - 1], rows[|rows| - 1];
            && rows == before + [last]
            && Restatus(rows, sel, st)
               == Restatus(before, sel, st) + [if Selects(sel, last) then last.(status := st) else last]
  {}

  // Releasing one row filters what it adds to the list.
  lemma ReleasedLast(before: seq<Row>, after: seq<Row>, last: Row, d: Id, b: Id)
    requires Active(after, b) == Without(Active(before, b), d)
    requires !(last.depositNo == d && last.basketNo == b && last.status == Matched)
    ensures var now := if Selects(OfDeposit(d), last) then last.(status := Released) else last;
            Active(after + [now], b) == Without(Active(before + [last], b), d)
  {
    var now := if Selects(OfDeposit(d), last) then last.(status := Released) else last;
    Appended(before, last, b, Released);
    Appended(after, now, b, Released);
    if last.basketNo == b && last.status != Released {
      WithoutStep(Active(before, b), last.depositNo, d);
      assert last.depositNo == d ==> now.status == Released && Active(after, b) + [] == Active(after, b);
    } else {
      assert Active(before, b) + [] == Active(before, b) && Active(after, b) + [] == Active(after, b);
    }
  }

  // Releasing one deposit filters the list of its basket and no other.
  lemma {:induction false} ReleasedActive(rows: seq<Row>, d: Id, b: Id)
    requires !Stands(rows, d, b, Matched)
    ensures Active(Restatus(rows, OfDeposit(d), Released), b) == Without(Active(rows, b), d)
  {
    if rows != [] {
      var n := |rows| - 1;
      assert forall i :: 0 <= i < n ==> rows[..n][i] == rows[i];
      assert !(rows[n].depositNo == d && rows[n].basketNo == b && rows[n].status == Matched);
      ReleasedActive(rows[..n], d, b);
      RestatusLast(rows, OfDeposit(d), Released);
      ReleasedLast(rows[..n], Restatus(rows[..n], OfDeposit(d), Released), rows[n], d, b);
    }
  }

  // An update of one basket leaves the lists of the others alone.
  lemma {:induction false} OtherActive(rows: seq<Row>, b: Id, st: RowStatus, other: Id)
    requires other != b
    ensures Active(Restatus(rows, OfBasket(b), st), other) == Active(rows, other)
  {
    if rows != [] {
      var n := |rows| - 1;
      OtherActive(rows[..n], b, st, other);
      assert Restatus(rows, OfBasket(b), st)[..n] == Restatus(rows[..n], OfBasket(b), st);
    }
  }

  // In a basket without matched rows the recovered list is the list of a completion.
  lemma {:induction false} ActiveIsAttached(rows: seq<Row>, b: Id)
    requires forall i :: 0 <= i < |rows| && rows[i].basketNo == b ==> rows[i].status != Matched
    ensures Active(rows, b) == AttachedNos(rows, b)
  {
    if rows != [] {
      var n := |rows| - 1;
      assert forall i :: 0 <= i < n ==> rows[..n][i] == rows[i];
      ActiveIsAttached(rows[..n], b);
    }
  }

  lemma {:induction false} AttachedNosAre(rows: seq<Row>, b: Id, d: Id)
    ensures d in AttachedNos(rows, b) <==> Stands(rows, d, b, Attached)
  {
    if rows != [] {
      var n := |rows| - 1;
      AttachedNosAre(rows[..n], b, d);
      assert forall i :: 0 <= i < n ==> rows[..n][i] == rows[i];
      if Stands(rows, d, b, Attached) {
        var i :| 0 <= i < |rows| && rows[i].depositNo == d && rows[i].basketNo == b && rows[i].status == Attached;
        if i < n {
          assert rows[..n][i] == rows[i];
        }
      }
    }
  }

  lemma {:induction false} ActiveAre(rows: seq<Row>, b: Id, d: Id)
    ensures d in Active(rows, b) <==> Stands(rows, d, b, Attached) || Stands(rows, d, b, Matched)
  {
    if rows != [] {
      var n := |rows| - 1;
      ActiveAre(rows[..n], b, d);
      assert forall i :: 0 <= i < n ==> rows[..n][i] == rows[i];
      if i :| 0 <= i < n && rows[i].depositNo == d && rows[i].basketNo == b && rows[i].status != Released {
        assert rows[..n][i] == rows[i];
      }
    }
  }

  lemma {:induction false} AttachedNosDistinct(rows: seq<Row>, b: Id)
    requires Distinct(rows)
    ensures var s := AttachedNos(rows, b); forall i, j :: 0 <= i < j < |s| ==> s[i] != s[j]
  {
    if rows != [] {
      var n := |rows| - 1;
      AttachedNosDistinct(rows[..n], b);
      AttachedNosAre(rows[..n], b, rows[n].depositNo);
      assert forall i :: 0 <= i < n ==> rows[..n][i] == rows[i];
    }
  }

  lemma {:induction false} SumPositive(rows: seq<Row>, b: Id, st: RowStatus)
    requires forall i :: 0 <= i < |rows| ==> rows[i].amount > 0
    ensures Sum(rows, b, st) >= 0
    ensures st == Attached ==> (Sum(rows, b, st) > 0 <==> AttachedNos(rows, b) != [])
    ensures st == Attached ==> Sum(rows, b, st) >= Moved(rows, OfBasket(b), b)
  {
    if rows != [] {
      var n := |rows| - 1;
      assert forall i :: 0 <= i < n ==> rows[..n][i] == rows[i];
      SumPositive(rows[..n], b, st);
    }
  }

  // One row is at most the sum of its kind.
  lemma {:induction false} SumCovers(rows: seq<Row>, i: nat)
    requires i < |rows| && forall k :: 0 <= k < |rows| ==> rows[k].amount > 0
    ensures Sum(rows, rows[i].basketNo, rows[i].status) >= rows[i].amount
  {
    var n := |rows| - 1;
    assert forall k :: 0 <= k < n ==> rows[..n][k] == rows[k];
    if i < n {
      SumCovers(rows[..n], i);
    } else {
      SumPositive(rows[..n], rows[i].basketNo, rows[i].status);
    }
  }

  lemma {:induction false} SumNone(rows: seq<Row>, b: Id, st: RowStatus)
    requires forall i :: 0 <= i < |rows| && rows[i].basketNo == b ==> rows[i].status != st
    ensures Sum(rows, b, st) == 0
  {
    if rows != [] {
      var n := |rows| - 1;
      assert forall i :: 0 <= i < n ==> rows[..n][i] == rows[i];
      SumNone(rows[..n], b, st);
    }
  }
}
