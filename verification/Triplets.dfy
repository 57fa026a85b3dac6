/** GSM triplets handed out in turn through a cursor that all IMSIs share. */
module Triplets {
  import opened Frames
  import opened Counters

  datatype Triplet = Triplet(imsi: string, id: nat)

  /** The first entry for an IMSI in db[lo..hi], or hi. */
  function FirstIn(db: seq<Triplet>, imsi: string, lo: nat, hi: nat): (i: nat)
    requires lo <= hi <= |db|
    ensures lo <= i <= hi && (i < hi ==> db[i].imsi == imsi) && forall j | lo <= j < i :: db[j].imsi != imsi
    decreases hi - lo
  {
    if lo == hi || db[lo].imsi == imsi then lo else FirstIn(db, imsi, lo + 1, hi)
  }

  /** The first match of the list rotated to start at the cursor; the cursor |db| stands for the end. */
  function Picked(db: seq<Triplet>, imsi: string, pos: nat): (r: Option<nat>)
    requires pos <= |db|
    ensures r.None? <==> forall t | t in db :: t.imsi != imsi
    ensures r.Some? ==> r.value < |db| && db[r.value].imsi == imsi
  {
    var i := FirstIn(db, imsi, pos, |db|);
    if i < |db| then Some(i)
    else
      var j := FirstIn(db, imsi, 0, pos);
      if j < pos then Some(j) else
        assert forall k | 0 <= k < |db| :: db[k].imsi != imsi;
        None
  }

  /** Cursor and triplets after n calls for one IMSI that has triplets. */
  function CursorAfter(db: seq<Triplet>, imsi: string, pos: nat, n: nat): (p: nat)
    requires pos <= |db| && Picked(db, imsi, pos).Some?
    ensures p <= |db|
  {
    if n == 0 then pos
    else
      var p := CursorAfter(db, imsi, pos, n - 1);
      var r := Picked(db, imsi, p);
      if r.Some? then r.value + 1 else p
  }

  function Handed(db: seq<Triplet>, imsi: string, pos: nat, n: nat): (g: seq<nat>)
    requires pos <= |db| && Picked(db, imsi, pos).Some?
    ensures |g| == n
  {
    if n == 0 then []
    else
      var p := CursorAfter(db, imsi, pos, n - 1);
      Handed(db, imsi, pos, n - 1) + [Picked(db, imsi, p).value]
  }

  lemma Started(db: seq<Triplet>, imsi: string, pos: nat)
    requires pos <= |db| && Picked(db, imsi, pos).Some?
    ensures Handed(db, imsi, pos, 0) == [] && CursorAfter(db, imsi, pos, 0) == pos
  {
  }

  lemma StillPicked(db: seq<Triplet>, imsi: string, p: nat, q: nat)
    requires p <= |db| && q <= |db| && Picked(db, imsi, p).Some?
    ensures Picked(db, imsi, q).Some?
  {
    assert db[Picked(db, imsi, p).value] in db;
  }

  lemma OneMore(db: seq<Triplet>, imsi: string, pos: nat, n: nat)
    requires pos <= |db| && Picked(db, imsi, pos).Some?
    ensures var r := Picked(db, imsi, CursorAfter(db, imsi, pos, n));
            && r.Some? && CursorAfter(db, imsi, pos, n + 1) == r.value + 1
            && Handed(db, imsi, pos, n + 1) == Handed(db, imsi, pos, n) + [r.value]
  {
    hide Picked;
    StillPicked(db, imsi, pos, CursorAfter(db, imsi, pos, n));
  }

  class Cursor {
    const db: seq<Triplet>
    var pos: nat

    constructor (db: seq<Triplet>)
      ensures this.db == db && pos == |db|
    {
      this.db, pos := db, |db|;
    }

    /** get_gsm_triplet: from the cursor to the end, then from the start to the cursor. */
    method GetTriplet(imsi: string) returns (r: Option<nat>)
      requires pos <= |db|
      modifies this`pos
      ensures pos <= |db| && r == Picked(db, imsi, old(pos))
      ensures pos == if r.Some? then r.value + 1 else old(pos)
    {
      var g := pos;
      while g < |db|
        invariant pos <= g <= |db| && forall j | pos <= j < g :: db[j].imsi != imsi
      {
        if db[g].imsi == imsi {
          pos := g + 1;
          return Some(g);
        }
        g := g + 1;
      }
      g := 0;
      while g < |db| && g != pos
        invariant g <= pos && forall j | 0 <= j < g :: db[j].imsi != imsi
        invariant forall j | pos <= j < |db| :: db[j].imsi != imsi
      {
        if db[g].imsi == imsi {
          pos := g + 1;
          return Some(g);
        }
        g := g + 1;
      }
      return None;
    }

    /** The triplet loop of sim_req_auth; every triplet it gets is for the IMSI asked for. */
    method SimReqAuth(imsi: string, maxChal: nat) returns (got: seq<nat>)
      requires pos <= |db|
      modifies this`pos
      ensures pos <= |db|
      ensures Picked(db, imsi, old(pos)).None? ==> got == [] && pos == old(pos)
      ensures Picked(db, imsi, old(pos)).Some? ==> |got| == maxChal && got == Handed(db, imsi, old(pos), maxChal)
      ensures Picked(db, imsi, old(pos)).Some? ==> pos == CursorAfter(db, imsi, old(pos), maxChal)
    {
      hide Handed, CursorAfter, Picked;
      got := [];
      if Picked(db, imsi, pos).Some? {
        Started(db, imsi, pos);
      }
      while |got| < maxChal
        invariant pos <= |db| && |got| <= maxChal
        invariant got != [] ==> Picked(db, imsi, old(pos)).Some?
        invariant Picked(db, imsi, old(pos)).Some? ==>
                    got == Handed(db, imsi, old(pos), |got|) && pos == CursorAfter(db, imsi, old(pos), |got|)
        invariant got == [] ==> pos == old(pos)
        decreases maxChal - |got|
      {
        if Picked(db, imsi, old(pos)).Some? {
          StillPicked(db, imsi, old(pos), pos);
          OneMore(db, imsi, old(pos), |got|);
        }
        var g := GetTriplet(imsi);
        if g.None? {
          break;
        }
        assert db[g.value].imsi == imsi;  // so the mismatch branch, which would loop again, is not reachable
        got := got + [g.value];
      }
    }
  }

  // Turns -------------------------------------------------------------------------------------

  /** Positions of an IMSI's triplets below hi, in list order. */
  function Matches(db: seq<Triplet>, imsi: string, hi: nat): (m: seq<nat>)
    requires hi <= |db|
    ensures forall i | 0 <= i < |m| :: m[i] < hi && db[m[i]].imsi == imsi
    ensures forall i, j | 0 <= i < j < |m| :: m[i] < m[j]
    ensures forall p | 0 <= p < hi && db[p].imsi == imsi :: p in m
  {
    if hi == 0 then []
    else Matches(db, imsi, hi - 1) + if db[hi - 1].imsi == imsi then [hi - 1] else []
  }

  lemma {:induction false} MatchesPrefix(db: seq<Triplet>, imsi: string, lo: nat, hi: nat)
    requires lo <= hi <= |db|
    ensures Matches(db, imsi, lo) <= Matches(db, imsi, hi)
    decreases hi - lo
  {
    if lo < hi {
      MatchesPrefix(db, imsi, lo, hi - 1);
    }
  }

  lemma MatchesGap(db: seq<Triplet>, imsi: string, lo: nat, hi: nat)
    requires lo <= hi <= |db| && forall j | lo <= j < hi :: db[j].imsi != imsi
    ensures Matches(db, imsi, lo) == Matches(db, imsi, hi)
    decreases hi - lo
  {
    if lo < hi {
      MatchesGap(db, imsi, lo, hi - 1);
    }
  }

  /** The number of an IMSI's triplets before a position. */
  function Rank(db: seq<Triplet>, imsi: string, pos: nat): nat
    requires pos <= |db|
  {
    |Matches(db, imsi, pos)|
  }

  lemma PickedAhead(db: seq<Triplet>, imsi: string, pos: nat, i: nat)
    requires pos <= i < |db| && db[i].imsi == imsi && forall j | pos <= j < i :: db[j].imsi != imsi
    ensures var m, r := Matches(db, imsi, |db|), Rank(db, imsi, pos);
            r < |m| && i == m[r] && Rank(db, imsi, i + 1) == r + 1
  {
    MatchesGap(db, imsi, pos, i);
    MatchesPrefix(db, imsi, i + 1, |db|);
    assert Matches(db, imsi, i + 1) == Matches(db, imsi, i) + [i];
  }

  lemma NoMatchBelow(db: seq<Triplet>, imsi: string)
    ensures Matches(db, imsi, 0) == []
  {
  }

  /** From a cursor of rank r comes triplet r modulo their number, and the rank goes up from there. */
  lemma PickedTurn(db: seq<Triplet>, imsi: string, pos: nat)
    requires pos <= |db| && Picked(db, imsi, pos).Some?
    ensures var m, i := Matches(db, imsi, |db|), Picked(db, imsi, pos).value;
            && |m| > 0
            && i == m[Rank(db, imsi, pos) % |m|] && Rank(db, imsi, i + 1) == Rank(db, imsi, pos) % |m| + 1
  {
    hide Matches, FirstIn;
    var m, i, r := Matches(db, imsi, |db|), Picked(db, imsi, pos).value, Rank(db, imsi, pos);
    if FirstIn(db, imsi, pos, |db|) < |db| {
      PickedAhead(db, imsi, pos, i);
      ModSmall(r, |m|);
    } else {
      NoMatchBelow(db, imsi);
      PickedAhead(db, imsi, 0, i);
      MatchesGap(db, imsi, pos, |db|);
      ModUnique(r, |m|, 1, 0);
    }
  }

  lemma CursorSteps(db: seq<Triplet>, imsi: string, pos: nat, n: nat)
    requires pos <= |db| && Picked(db, imsi, pos).Some?
    ensures n == 0 ==> CursorAfter(db, imsi, pos, n) == pos
    ensures n > 0 ==>
              var p := CursorAfter(db, imsi, pos, n - 1);
              Picked(db, imsi, p).Some? && CursorAfter(db, imsi, pos, n) == Picked(db, imsi, p).value + 1
  {
    hide Picked;
    if n > 0 {
      StillPicked(db, imsi, pos, CursorAfter(db, imsi, pos, n - 1));
    }
  }

  lemma NextTurn(next: nat, a: nat, b: nat, n: nat, m: nat)
    requires m > 0 && n > 0 && next == a % m + 1 && a % m == (b + n - 1) % m
    ensures next % m == (b + n) % m
  {
    ModStep(b + n - 1, m);
  }

  lemma CursorRankStep(db: seq<Triplet>, imsi: string, pos: nat, n: nat, m: nat)
    requires pos <= |db| && Picked(db, imsi, pos).Some? && n > 0 && m == |Matches(db, imsi, |db|)| && m > 0
    requires Rank(db, imsi, CursorAfter(db, imsi, pos, n - 1)) % m == (Rank(db, imsi, pos) + n - 1) % m
    ensures Rank(db, imsi, CursorAfter(db, imsi, pos, n)) % m == (Rank(db, imsi, pos) + n) % m
  {
    hide Matches, FirstIn, Picked, Rank, CursorAfter;
    var p := CursorAfter(db, imsi, pos, n - 1);
    CursorSteps(db, imsi, pos, n);
    PickedTurn(db, imsi, p);
    NextTurn(Rank(db, imsi, CursorAfter(db, imsi, pos, n)), Rank(db, imsi, p), Rank(db, imsi, pos), n, m);
  }

  lemma {:induction false} CursorRank(db: seq<Triplet>, imsi: string, pos: nat, n: nat)
    requires pos <= |db| && Picked(db, imsi, pos).Some?
    ensures var m := Matches(db, imsi, |db|);
            |m| > 0 && Rank(db, imsi, CursorAfter(db, imsi, pos, n)) % |m| == (Rank(db, imsi, pos) + n) % |m|
  {
    hide Matches, FirstIn, Picked, Rank, CursorAfter;
    if n == 0 {
      PickedTurn(db, imsi, pos);
      CursorSteps(db, imsi, pos, 0);
    } else {
      CursorRank(db, imsi, pos, n - 1);
      CursorRankStep(db, imsi, pos, n, |Matches(db, imsi, |db|)|);
    }
  }

  lemma {:induction false} HandedAt(db: seq<Triplet>, imsi: string, pos: nat, n: nat, k: nat)
    requires pos <= |db| && Picked(db, imsi, pos).Some? && k < n
    ensures Picked(db, imsi, CursorAfter(db, imsi, pos, k)).Some?
    ensures Handed(db, imsi, pos, n)[k] == Picked(db, imsi, CursorAfter(db, imsi, pos, k)).value
  {
    hide Picked;
    StillPicked(db, imsi, pos, CursorAfter(db, imsi, pos, k));
    if k < n - 1 {
      HandedAt(db, imsi, pos, n - 1, k);
    }
  }

  /** While one IMSI asks, its triplets come in list order, round and round. */
  lemma CyclicOrder(db: seq<Triplet>, imsi: string, pos: nat, n: nat, k: nat)
    requires pos <= |db| && Picked(db, imsi, pos).Some? && k < n
    ensures var m := Matches(db, imsi, |db|);
            |m| > 0 && Handed(db, imsi, pos, n)[k] == m[(Rank(db, imsi, pos) + k) % |m|]
  {
    hide Matches, FirstIn, Picked, Handed, CursorAfter, Rank;
    HandedAt(db, imsi, pos, n, k);
    CursorRank(db, imsi, pos, k);
    PickedTurn(db, imsi, CursorAfter(db, imsi, pos, k));
  }

  // Fairness ----------------------------------------------------------------------------------

  /** How often turn t came up in the first n turns of a cycle of m that starts at r. */
  function Turns(r: nat, m: nat, t: nat, n: nat): nat
    requires m > 0
  {
    if n == 0 then 0 else Turns(r, m, t, n - 1) + if (r + n - 1) % m == t then 1 else 0
  }

  lemma Shifted(x: nat, q: int, m: nat)
    requires m > 0 && x + q * m >= 0
    ensures (x + q * m) % m == x % m
  {
    var a := x / m;
    assert x == a * m + x % m;
    assert x + q * m == (a + q) * m + x % m;
    ModUnique(x + q * m, m, a + q, x % m);
  }

  lemma NotYet(r: nat, m: nat, t: nat, n: nat, d: nat, q: int, e: nat)
    requires m > 0 && d < m && (r + d) % m == t && n + m - 1 - d == q * m + e && e < m - 1
    ensures (r + n) % m != t
  {
    var y := (r + d) + (q - 1) * m + (e + 1);
    assert r + n == y;
    assert (r + n) - (r + d) == (q - 1) * m + (e + 1);
    if r + d <= r + n {
      ModEqual(r + d, r + n, m);
      ModUnique(n - d, m, q - 1, e + 1);
    } else {
      ModEqual(r + n, r + d, m);
      assert d - n == (-q) * m + (m - (e + 1));
      ModUnique(d - n, m, -q, m - (e + 1));
    }
  }

  lemma TurnComesUp(r: nat, m: nat, t: nat, n: nat, d: nat)
    requires m > 0 && t < m && d < m && (r + d) % m == t
    ensures (n + m - d) / m == (n + m - 1 - d) / m + if (r + n) % m == t then 1 else 0
  {
    var x := n + m - 1 - d;
    var q, e := x / m, x % m;
    assert x == q * m + e;
    if e == m - 1 {
      assert x + 1 == (q + 1) * m;
      ModUnique(x + 1, m, q + 1, 0);
      assert r + n == (r + d) + q * m;
      Shifted(r + d, q, m);
    } else {
      ModUnique(x + 1, m, q, e + 1);
      NotYet(r, m, t, n, d, q, e);
    }
  }

  /** Turns in closed form; d is how far t lies ahead of r. */
  lemma {:induction false} TurnsClosed(r: nat, m: nat, t: nat, n: nat, d: nat)
    requires m > 0 && t < m && d < m && (r + d) % m == t
    ensures Turns(r, m, t, n) == (n + m - 1 - d) / m
  {
    if n == 0 {
      ModUnique(m - 1 - d, m, 0, m - 1 - d);
    } else {
      TurnsClosed(r, m, t, n - 1, d);
      TurnComesUp(r, m, t, n - 1, d);
    }
  }

  lemma Between(n: nat, m: nat, d: nat)
    requires d < m
    ensures n / m <= (n + m - 1 - d) / m <= n / m + 1
  {
    var q, r := n / m, n % m;
    assert n == q * m + r;
    var x := r + m - 1 - d;
    if x < m {
      ModUnique(n + m - 1 - d, m, q, x);
    } else {
      assert n + m - 1 - d == (q + 1) * m + (x - m);
      ModUnique(n + m - 1 - d, m, q + 1, x - m);
    }
  }

  lemma AheadIs(r: nat, m: nat, t: nat, d: nat)
    requires m > 0 && t < m && d == if t >= r % m then t - r % m else t + m - r % m
    ensures d < m && (r + d) % m == t
  {
    var q, b := r / m, r % m;
    assert r == q * m + b;
    if t >= b {
      ModUnique(r + d, m, q, t);
    } else {
      assert r + d == (q + 1) * m + t;
      ModUnique(r + d, m, q + 1, t);
    }
  }

  function Ahead(r: nat, m: nat, t: nat): (d: nat)
    requires m > 0 && t < m
    ensures d < m && (r + d) % m == t
  {
    var b := r % m;
    var d := if t >= b then t - b else t + m - b;
    AheadIs(r, m, t, d);
    d
  }

  /** Any two of an IMSI's triplets have been used equally often, up to one. */
  lemma FairTurns(r: nat, m: nat, n: nat, t: nat, u: nat)
    requires m > 0 && t < m && u < m
    ensures -1 <= Turns(r, m, t, n) - Turns(r, m, u, n) <= 1
  {
    var d, e := Ahead(r, m, t), Ahead(r, m, u);
    TurnsClosed(r, m, t, n, d);
    TurnsClosed(r, m, u, n, e);
    Between(n, m, d);
    Between(n, m, e);
  }

  lemma HandedStep(db: seq<Triplet>, imsi: string, pos: nat, n: nat)
    requires pos <= |db| && Picked(db, imsi, pos).Some?
    ensures n == 0 ==> Handed(db, imsi, pos, n) == []
    ensures n > 0 ==> Handed(db, imsi, pos, n) == Handed(db, imsi, pos, n - 1) + [Handed(db, imsi, pos, n)[n - 1]]
  {
    hide Picked, CursorAfter;
  }

  lemma CountMore(g: seq<nat>, y: nat, x: nat)
    ensures multiset(g + [y])[x] == multiset(g)[x] + if x == y then 1 else 0
  {
  }

  lemma Increasing(db: seq<Triplet>, imsi: string, t: nat, u: nat)
    requires t < |Matches(db, imsi, |db|)| && u < |Matches(db, imsi, |db|)|
    ensures Matches(db, imsi, |db|)[t] == Matches(db, imsi, |db|)[u] <==> t == u
  {
  }

  /** A triplet has been handed out as often as its turn came up. */
  lemma {:induction false} UseIsTurns(db: seq<Triplet>, imsi: string, pos: nat, n: nat, t: nat)
    requires pos <= |db| && Picked(db, imsi, pos).Some? && t < |Matches(db, imsi, |db|)|
    ensures var m := Matches(db, imsi, |db|);
            multiset(Handed(db, imsi, pos, n))[m[t]] == Turns(Rank(db, imsi, pos), |m|, t, n)
  {
    hide Matches, FirstIn, Picked, Rank, Handed, CursorAfter;
    if n == 0 {
      HandedStep(db, imsi, pos, 0);
    } else {
      var m, r := Matches(db, imsi, |db|), Rank(db, imsi, pos);
      UseIsTurns(db, imsi, pos, n - 1, t);
      CyclicOrder(db, imsi, pos, n, n - 1);
      HandedStep(db, imsi, pos, n);
      CountMore(Handed(db, imsi, pos, n - 1), Handed(db, imsi, pos, n)[n - 1], m[t]);
      Increasing(db, imsi, t, (r + n - 1) % |m|);
    }
  }

  /** While one IMSI asks, any two of its triplets have been handed out equally often, up to one. */
  lemma FairUse(db: seq<Triplet>, imsi: string, pos: nat, n: nat, t: nat, u: nat)
    requires pos <= |db| && Picked(db, imsi, pos).Some?
    requires t < |Matches(db, imsi, |db|)| && u < |Matches(db, imsi, |db|)|
    ensures var m, used := Matches(db, imsi, |db|), multiset(Handed(db, imsi, pos, n));
            -1 <= used[m[t]] as int - used[m[u]] as int <= 1
  {
    hide Matches, FirstIn, Picked, Rank, Handed;
    UseIsTurns(db, imsi, pos, n, t);
    UseIsTurns(db, imsi, pos, n, u);
    FairTurns(Rank(db, imsi, pos), |Matches(db, imsi, |db|)|, n, t, u);
  }
}
