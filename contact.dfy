/** The one-shot contact test that bullets (`Bullet.checkCollision`) and
    bonuses (`Bonus.checkCollision`) share: an inactive object touches
    nothing, and the first contact deactivates it for good. */
module Contact {

  /** What one test reports and whether the object is active afterwards. */
  datatype Outcome = Outcome(hit: bool, active: bool)

  /** One test, given whether the other circle is within reach. */
  function Check(active: bool, near: bool): (o: Outcome)
    ensures o.hit <==> active && near
    ensures o.hit ==> !o.active
    ensures !o.hit ==> o.active == active
  {
    if !active then Outcome(false, false)
    else if near then Outcome(true, false)
    else Outcome(false, true)
  }

  /** The reports of successive tests against the circles in `nears`. */
  function Reports(active: bool, nears: seq<bool>): (r: seq<bool>)
    ensures |r| == |nears|
  {
    if nears == [] then []
    else
      var o := Check(active, nears[0]);
      [o.hit] + Reports(o.active, nears[1..])
  }

  /** Whether the object is still active after those tests. */
  function ActiveAfter(active: bool, nears: seq<bool>): bool
  {
    if nears == [] then active
    else ActiveAfter(Check(active, nears[0]).active, nears[1..])
  }

  function CountHits(r: seq<bool>): nat
  {
    if r == [] then 0 else (if r[0] then 1 else 0) + CountHits(r[1..])
  }

  /** However many tests follow, at most one of them reports a hit; an
      inactive object never reports one, and after a hit the object is
      inactive. The object stays active exactly when no test hits. */
  lemma {:induction false} HitsAtMostOnce(active: bool, nears: seq<bool>)
    ensures CountHits(Reports(active, nears)) <= 1
    ensures !active ==> CountHits(Reports(active, nears)) == 0
    ensures ActiveAfter(active, nears) <==> active && CountHits(Reports(active, nears)) == 0
  {
    if nears != [] {
      var o := Check(active, nears[0]);
      HitsAtMostOnce(o.active, nears[1..]);
      assert Reports(active, nears)[1..] == Reports(o.active, nears[1..]);
    }
  }
}
