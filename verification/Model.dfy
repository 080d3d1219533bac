// Status codes and small datatypes shared by the engine and the tables.

module Model {

  // Order, basket, withdrawal and match numbers, channels and currencies. The
  // wrapper keeps the characters of a name out of proofs that only compare names.
  datatype Id = Id(text: string)
  const EMPTY := Id("")

  datatype Option<+T> = None | Some(value: T)

  // Status codes of orders and baskets. A message may bring any 32-bit value, hence
  // plain integers; that a TINYINT column holds fewer of them is not modelled.
  const WAITING := 1
  const LOCKED := 2
  const MATCHED := 3
  const EXPIRED := 5

  // A deposit as the engine sees it.
  datatype Deposit = Deposit(no: Id, channel: Id, currency: Id, amount: int, status: int, expireAt: int)

  // Why a deposit got no basket.
  datatype Failure = NoFailure | NilDeposit | WrongShard | NotWaiting | NoBasket

  // The result of matching one deposit, with the content of its own list of deposit
  // numbers; that nothing overwrites that list is proved in module Slices.
  datatype MatchResult = MatchResult(
    matched: bool, attached: bool, basketNo: Id, withdrawNo: Id, channel: Id, currency: Id,
    depositNos: seq<Id>, target: int, matchedAmount: int, short: int, pending: bool, failure: Failure)

  // The list `s` without the number `no`, order kept.
  function Without(s: seq<Id>, no: Id): (r: seq<Id>)
    ensures no !in r
    ensures no !in s ==> r == s
    ensures forall x :: x in r ==> x in s
  {
    if s == [] then []
    else
      var n := |s| - 1;
      if s[n] == no then Without(s[..n], no) else Without(s[..n], no) + [s[n]]
  }

  lemma WithoutStep(s: seq<Id>, x: Id, no: Id)
    ensures Without(s + [x], no) == if x == no then Without(s, no) else Without(s, no) + [x]
  {
    assert (s + [x])[..|s|] == s;
  }

  lemma {:induction false} WithoutAppended(s: seq<Id>, no: Id)
    ensures Without(s + [no], no) == s <==> no !in s
  {
    assert (s + [no])[..|s|] == s;
  }

  lemma {:induction false} DistinctCount(s: seq<Id>)
    requires forall i, j :: 0 <= i < j < |s| ==> s[i] != s[j]
    ensures |set x | x in s| == |s|
  {
    if s != [] {
      var n := |s| - 1;
      DistinctCount(s[..n]);
      assert s == s[..n] + [s[n]];
      assert (set x | x in s) == (set x | x in s[..n]) + {s[n]};
    }
  }

  lemma {:induction false} SameSize(a: set<Id>, b: set<Id>)
    requires a <= b && |a| == |b|
    ensures a == b
    decreases |a|
  {
    if a != {} {
      var x :| x in a;
      SameSize(a - {x}, b - {x});
      assert a == a - {x} + {x} && b == b - {x} + {x};
    }
  }
}
