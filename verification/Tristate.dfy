/** The three-valued logic of Kconfig: n < m < y, with && as minimum, || as maximum and ! as 2 - x. */
module Tristate {
  type Tri = t: int | 0 <= t <= 2

  const NO: Tri := 0
  const MOD: Tri := 1
  const YES: Tri := 2

  function And(a: Tri, b: Tri): Tri { if a < b then a else b }

  function Or(a: Tri, b: Tri): Tri { if a > b then a else b }

  function Not(a: Tri): Tri { 2 - a }

  function FromBool(b: bool): Tri { if b then YES else NO }

  /** m is the greatest of the values `xs`, and n if there are none. */
  ghost predicate IsMax(m: Tri, xs: set<Tri>) { m in xs + {NO} && forall x :: x in xs ==> x <= m }

  lemma MaxOne(a: Tri, xs: set<Tri>, x: Tri)
    requires IsMax(a, xs)
    ensures IsMax(Or(a, x), xs + {x})
  {
  }

  datatype Option<+T> = None | Some(value: T)
}
