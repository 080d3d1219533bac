// The in-memory basket (internal/engine/basket.go). Its list of deposit numbers is
// held by content, and changed through a slice with a backing array.

module Basket {
  import opened Model
  import opened Pool
  import Slices

  class Basket {
    const no: Id
    const withdrawNo: Id
    const channel: Id
    const currency: Id
    const target: int
    const expireAt: int
    var current: int
    var status: int
    var depositNos: seq<Id>

    ghost function View(): BasketView
      reads this
    {
      BasketView(withdrawNo, channel, currency, target, current, depositNos, status, expireAt)
    }

    constructor (no: Id, view: BasketView)
      ensures this.no == no && View() == view.(deposits := [])
    {
      this.no := no;
      withdrawNo, channel, currency := view.withdrawNo, view.channel, view.currency;
      target, expireAt := view.target, view.expireAt;
      current, status := view.current, view.status;
      depositNos := [];
    }

    function NeedAmount(): (n: int)
      reads this
    {
      var need := target - current;
      if need < 0 then 0 else need
    }

    // The room of the source is the same amount as the need.
    predicate CanAccept(amount: int)
      reads this
    {
      status == WAITING && amount <= NeedAmount()
    }

    predicate CanComplete(amount: int)
      reads this
    {
      status == WAITING && current + amount == target
    }

    method AttachDeposit(deposit: Deposit)
      modifies this`current, this`depositNos
      ensures View() == old(View()).(current := old(View()).current + deposit.amount,
                                 deposits := old(View()).deposits + [deposit.no])
    {
      var list := new Slices.Slice(depositNos);
      list.Append(deposit.no);
      current := current + deposit.amount;
      depositNos := list.List();
    }

    method Release(deposit: Id, amount: int)
      modifies this`current, this`depositNos
      ensures View() == old(View()).(
                current := if old(View()).current >= amount then old(View()).current - amount else 0,
                deposits := Without(old(View()).deposits, deposit))
    {
      if current >= amount {
        current := current - amount;
      } else {
        current := 0;
      }
      var list := new Slices.Slice(depositNos);
      list.RemoveDepositNo(deposit);
      depositNos := list.List();
    }
  }
}
