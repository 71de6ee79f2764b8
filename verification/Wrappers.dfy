/** A nullable column or an optional value. */
module Wrappers {
  datatype Option<+T> = None | Some(value: T)
}

module Delivery {
  /** What becomes of a request to another machine: it takes effect and is answered, it takes effect and its answer
      is lost, or it takes no effect. The sender cannot tell the last two apart. */
  datatype Fate = Answered | Unanswered | Lost
}

module Numbers {
  function Min(a: nat, b: nat): nat {
    if a < b then a else b
  }

  function Max(a: int, b: int): int {
    if a < b then b else a
  }
}

module Time {
  /** Whole seconds of a time in milliseconds: `Math.floor(ms / 1000)`. */
  function Seconds(ms: int): int {
    ms / 1000
  }
}
