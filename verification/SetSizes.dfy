/** Sizes of finite sets. */
module SetSizes {

  lemma {:induction false} SubsetSize(s: set<nat>, t: set<nat>)
    requires s <= t
    ensures |s| <= |t|
    decreases s
  {
    if s != {} {
      var x :| x in s;
      SubsetSize(s - {x}, t - {x});
    }
  }

  lemma ProperSize(s: set<nat>, t: set<nat>, x: nat)
    requires s <= t && x in t && x !in s
    ensures |s| < |t|
  {
    SubsetSize(s + {x}, t);
  }

  lemma OneMore(s: set<nat>, x: nat)
    ensures |s + {x}| <= |s| + 1
  {
    if x in s {
      assert s + {x} == s;
    }
  }

  lemma UnionSize(s: set<nat>, t: set<nat>)
    ensures |s + t| <= |s| + |t|
  {
    assert s + t == s + (t - s) && s !! (t - s);
    SubsetSize(t - s, t);
  }
}
