/** The least and the greatest of a list of reals. */
module Extremes {

  function Least(values: seq<real>): (m: real)
    requires values != []
    ensures m in values && forall v | v in values :: m <= v
  {
    if |values| == 1 then values[0]
    else
      var rest := Least(values[1..]);
      assert values == [values[0]] + values[1..];
      if values[0] <= rest then values[0] else rest
  }

  function Greatest(values: seq<real>): (m: real)
    requires values != []
    ensures m in values && forall v | v in values :: v <= m
  {
    if |values| == 1 then values[0]
    else
      var rest := Greatest(values[1..]);
      assert values == [values[0]] + values[1..];
      if values[0] >= rest then values[0] else rest
  }
}
