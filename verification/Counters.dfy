// The global counters of internal/orderbook/order.go: order ids and match numbers.
module Counters {

  class Counter {
    var last: nat

    constructor ()
      ensures last == 0
    {
      last := 0;
    }

    method Next() returns (n: nat)
      modifies this
      ensures n == last == old(last) + 1
    {
      last := last + 1;
      n := last;
    }

    method Set(value: nat)
      modifies this
      ensures last == value
    {
      last := value;
    }

    method Get() returns (value: nat)
      ensures value == last
    {
      value := last;
    }
  }
}
