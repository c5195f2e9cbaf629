/** Facts about division that the solver does not find by itself. */
module Division {

  lemma MulMonotone(a: nat, b: nat, l: nat)
    requires a <= b
    ensures a * l <= b * l
  {
  }

  /** `b / l` is the greatest `q` with `q * l <= b`. */
  lemma DivAtLeast(b: nat, l: nat, q: nat)
    requires l > 0
    ensures b / l >= q <==> b >= q * l
  {
    var d := b / l;
    assert b == d * l + b % l;
    if d < q {
      MulMonotone(d + 1, q, l);
    } else {
      MulMonotone(q, d, l);
    }
  }

  lemma DivMonotone(a: nat, b: nat, l: nat)
    requires l > 0 && a <= b
    ensures a / l <= b / l
  {
    DivAtLeast(a, l, a / l);
    DivAtLeast(b, l, a / l);
  }

  lemma DivShift(a: nat, b: nat, l: nat)
    requires l > 0 && b >= a + l
    ensures b / l >= a / l + 1
  {
    DivAtLeast(a, l, a / l);
    assert (a / l + 1) * l == a / l * l + l;
    DivAtLeast(b, l, a / l + 1);
  }

  lemma Cancel(a: nat, b: nat, l: nat)
    requires l > 0 && a * l <= b * l
    ensures a <= b
  {
    if b < a {
      MulMonotone(b + 1, a, l);
    }
  }

  lemma CancelStrict(a: nat, b: nat, l: nat)
    requires l > 0 && a * l < b * l
    ensures a < b
  {
    if b <= a {
      MulMonotone(b, a, l);
    }
  }
}
