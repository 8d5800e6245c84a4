// A truth value as a count.
module Indicator {

  function Flag(b: bool): nat { if b then 1 else 0 }
}
