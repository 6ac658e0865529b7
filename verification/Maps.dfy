/** The first entry of an ordered map. */
module Maps {
  lemma {:induction false} LeastOf(s: set<nat>) returns (least: nat)
    requires s != {}
    ensures least in s && forall k :: k in s ==> least <= k
  {
    var x :| x in s;
    if s == {x} {
      least := x;
    } else {
      var rest := s - {x};
      assert rest != {};
      var y := LeastOf(rest);
      least := if x < y then x else y;
      assert forall k :: k in s ==> k == x || k in rest;
    }
  }

  lemma LeastKey(m: map<nat, nat>)
    requires m != map[]
    ensures exists first :: first in m && forall k :: k in m ==> first <= k
  {
    var key :| key in m;
    assert key in m.Keys;
    var least := LeastOf(m.Keys);
  }

  ghost function Least(m: map<nat, nat>): (first: nat)
    requires m != map[]
    ensures first in m && forall k :: k in m ==> first <= k
  {
    LeastKey(m);
    var first :| first in m && forall k :: k in m ==> first <= k;
    first
  }
}
