// The sparkle particles: what one tick of `update_sparkles` does to the list
// and draws, stated as functions on the list, with the lifecycle of one sparkle.
module Sparkles {

  import opened Color
  import opened Primitives

  datatype Sparkle = Sparkle(x: real, y: real, z: real, size: real, lifetime: real, hue: real)

  /** At most this many sparkles are alive; below it one is spawned per tick. */
  const Cap: nat := 50

  /** The ranges of the six `random.uniform` draws of a new sparkle (closed, as `uniform` documents them). */
  predicate SpawnRanges(c: Sparkle) {
    -5.0 <= c.x <= 5.0 && -5.0 <= c.y <= 5.0 && -1.0 <= c.z <= 1.0
    && 0.05 <= c.size <= 0.2 && 30.0 <= c.lifetime <= 60.0 && 0.0 <= c.hue <= 360.0
  }

  /** What holds of every sparkle in the list between ticks. */
  predicate Live(sp: Sparkle) {
    -5.0 <= sp.x <= 5.0 && -5.0 <= sp.y <= 5.0 && -1.0 <= sp.z <= 1.0
    && 0.05 <= sp.size && 0.0 < sp.lifetime && 0.0 <= sp.hue < 360.0
  }

  predicate AllLive(s: seq<Sparkle>) {
    forall i :: 0 <= i < |s| ==> Live(s[i])
  }

  /** The spawn step: append the new sparkle when fewer than `Cap` are present. */
  function Spawned(s: seq<Sparkle>, c: Sparkle): seq<Sparkle> {
    if |s| < Cap then s + [c] else s
  }

  /** `sparkle['lifetime'] -= 1` */
  function Decremented(sp: Sparkle): Sparkle {
    sp.(lifetime := sp.lifetime - 1.0)
  }

  /** `sparkle['size'] *= 1.02` and `sparkle['hue'] = (sparkle['hue'] + 1) % 360` */
  function Grown(sp: Sparkle): Sparkle {
    sp.(size := sp.size * 1.02, hue := Mod360(sp.hue + 1.0))
  }

  /** A sparkle is removed when its lifetime, once decremented, is no longer positive. */
  predicate Expires(sp: Sparkle) {
    Decremented(sp).lifetime <= 0.0
  }

  /** A survivor: one tick older, 2% larger, hue one degree further round the wheel. */
  function Advance(sp: Sparkle): Sparkle {
    Grown(Decremented(sp))
  }

  /** The sphere a sparkle is drawn as: its position, its size and its hue before they are updated. */
  function Glint(sp: Sparkle): Primitive {
    Sphere(Vec3(sp.x, sp.y, sp.z), sp.size, 8, 8, Shade(HsbToRgb(sp.hue, 1.0, 1.0)))
  }

  /** The aging pass over the list, front to back: expired sparkles dropped, survivors advanced. */
  function Aged(s: seq<Sparkle>): seq<Sparkle>
    decreases |s|
  {
    if s == [] then []
    else
      var last := s[|s| - 1];
      Aged(s[..|s| - 1]) + (if Expires(last) then [] else [Advance(last)])
  }

  /** The spheres the aging pass draws, in the same order. */
  function Glints(s: seq<Sparkle>): seq<Primitive>
    decreases |s|
  {
    if s == [] then []
    else
      var last := s[|s| - 1];
      Glints(s[..|s| - 1]) + (if Expires(last) then [] else [Glint(Decremented(last))])
  }

  /** The positions in s of the sparkles that survive the aging pass. */
  function Kept(s: seq<Sparkle>): seq<int>
    decreases |s|
  {
    if s == [] then []
    else Kept(s[..|s| - 1]) + (if Expires(s[|s| - 1]) then [] else [|s| - 1])
  }

  /**
   * The aging pass keeps exactly the sparkles that do not expire, in their
   * original order; each survivor is the advanced original and is drawn as
   * the original's sphere; nothing else is drawn.
   */
  lemma {:induction false} AgedSpec(s: seq<Sparkle>)
    ensures |Kept(s)| == |Aged(s)| == |Glints(s)| <= |s|
    ensures forall k :: 0 <= k < |Kept(s)| ==>
              0 <= Kept(s)[k] < |s|
              && Aged(s)[k] == Advance(s[Kept(s)[k]])
              && Glints(s)[k] == Glint(Decremented(s[Kept(s)[k]]))
    ensures forall k, l :: 0 <= k < l < |Kept(s)| ==> Kept(s)[k] < Kept(s)[l]
    ensures forall i :: 0 <= i < |s| ==> (i in Kept(s) <==> !Expires(s[i]))
  {
    if s != [] {
      var init := s[..|s| - 1];
      AgedSpec(init);
      assert forall k :: 0 <= k < |init| ==> init[k] == s[k];
    }
  }

  /** Sparkles age independently: the pass over a list is the passes over its parts, joined. */
  lemma {:induction false} AgedAppend(a: seq<Sparkle>, b: seq<Sparkle>)
    ensures Aged(a + b) == Aged(a) + Aged(b)
    ensures Glints(a + b) == Glints(a) + Glints(b)
    decreases |b|
  {
    if b == [] {
      assert a + b == a;
    } else {
      var init, last := b[..|b| - 1], b[|b| - 1];
      assert (a + b)[..|a + b| - 1] == a + init;
      assert (a + b)[|a + b| - 1] == last;
      AgedAppend(a, init);
      assert Aged(a + b) == Aged(a + init) + (if Expires(last) then [] else [Advance(last)]);
      assert Glints(a + b) == Glints(a + init) + (if Expires(last) then [] else [Glint(Decremented(last))]);
    }
  }

  /** The pass over one sparkle. */
  lemma AgedSingle(sp: Sparkle)
    ensures Aged([sp]) == if Expires(sp) then [] else [Advance(sp)]
    ensures Glints([sp]) == if Expires(sp) then [] else [Glint(Decremented(sp))]
  {
    assert [sp][..0] == [];
  }

  /** Extending the list by one sparkle extends the pass by that sparkle's step. */
  lemma AgedStep(s: seq<Sparkle>, i: nat)
    requires i < |s|
    ensures Aged(s[..i + 1]) == Aged(s[..i]) + (if Expires(s[i]) then [] else [Advance(s[i])])
    ensures Glints(s[..i + 1]) == Glints(s[..i]) + (if Expires(s[i]) then [] else [Glint(Decremented(s[i]))])
  {
    assert s[..i + 1][..i] == s[..i];
  }

  /**
   * `list.remove(x)`: drops the first element equal to x. Python raises
   * ValueError when there is none, so x must be present.
   */
  function RemoveFirst(s: seq<Sparkle>, x: Sparkle): (r: seq<Sparkle>)
    requires x in s
    ensures |r| == |s| - 1
  {
    if s[0] == x then s[1..] else [s[0]] + RemoveFirst(s[1..], x)
  }

  /** Exactly one copy of x is gone and every other element is kept. */
  lemma {:induction false} RemoveFirstOneCopy(s: seq<Sparkle>, x: Sparkle)
    requires x in s
    ensures multiset(RemoveFirst(s, x)) == multiset(s) - multiset{x}
  {
    assert s == [s[0]] + s[1..];
    if s[0] != x {
      RemoveFirstOneCopy(s[1..], x);
    }
  }

  /** When position i holds the first copy of x, removing x is removing position i. */
  lemma {:induction false} RemoveFirstAt(s: seq<Sparkle>, i: nat, x: Sparkle)
    requires i < |s| && s[i] == x
    requires forall k :: 0 <= k < i ==> s[k] != x
    ensures RemoveFirst(s, x) == s[..i] + s[i + 1..]
    decreases i
  {
    if i > 0 {
      assert s[0] != x;
      RemoveFirstAt(s[1..], i - 1, x);
      assert s[1..][..i - 1] == s[1..i];
      assert s[1..][i..] == s[i + 1..];
      assert [s[0]] + s[1..i] == s[..i];
    }
  }

  /** Every survivor of the aging pass still has a positive lifetime. */
  lemma AgedPositive(s: seq<Sparkle>)
    ensures forall k :: 0 <= k < |Aged(s)| ==> Aged(s)[k].lifetime > 0.0
  {
    AgedSpec(s);
  }

  /**
   * While the pass visits position i of its snapshot, the live list is the
   * result of the pass so far followed by the unvisited rest, so the
   * visited sparkle sits right after the survivors so far; decrementing it
   * there gives the list the rest of the visit works on.
   */
  lemma VisitAt(snapshot: seq<Sparkle>, i: nat, live: seq<Sparkle>)
    requires i < |snapshot| && live == Aged(snapshot[..i]) + snapshot[i..]
    ensures var at := |Aged(snapshot[..i])|;
            at < |live| && live[at] == snapshot[i]
            && live[at := Decremented(snapshot[i])]
               == Aged(snapshot[..i]) + [Decremented(snapshot[i])] + snapshot[i + 1..]
  {
    var at := |Aged(snapshot[..i])|;
    var next := Aged(snapshot[..i]) + [Decremented(snapshot[i])] + snapshot[i + 1..];
    assert |live[at := Decremented(snapshot[i])]| == |next|;
    forall k | 0 <= k < |next|
      ensures live[at := Decremented(snapshot[i])][k] == next[k]
    {
    }
  }

  /**
   * Removing an expired visited sparkle by value removes it at its own
   * position, since every sparkle before it has a positive lifetime; the
   * pass is then one step further.
   */
  lemma VisitDrop(snapshot: seq<Sparkle>, i: nat, live: seq<Sparkle>)
    requires i < |snapshot| && Expires(snapshot[i])
    requires live == Aged(snapshot[..i]) + [Decremented(snapshot[i])] + snapshot[i + 1..]
    ensures Decremented(snapshot[i]) in live
    ensures RemoveFirst(live, Decremented(snapshot[i])) == Aged(snapshot[..i + 1]) + snapshot[i + 1..]
    ensures |Aged(snapshot[..i + 1])| == |Aged(snapshot[..i])|
    ensures Glints(snapshot[..i + 1]) == Glints(snapshot[..i])
  {
    AgedStep(snapshot, i);
    AgedPositive(snapshot[..i]);
    var at := |Aged(snapshot[..i])|;
    RemoveFirstAt(live, at, Decremented(snapshot[i]));
    assert live[..at] == Aged(snapshot[..i]);
    assert live[at + 1..] == snapshot[i + 1..];
  }

  /** Growing a surviving visited sparkle in place leaves the pass one step further. */
  lemma VisitKeep(snapshot: seq<Sparkle>, i: nat, live: seq<Sparkle>)
    requires i < |snapshot| && !Expires(snapshot[i])
    requires live == Aged(snapshot[..i]) + [Decremented(snapshot[i])] + snapshot[i + 1..]
    ensures var at := |Aged(snapshot[..i])|;
            live[at := Advance(snapshot[i])] == Aged(snapshot[..i + 1]) + snapshot[i + 1..]
            && |Aged(snapshot[..i + 1])| == at + 1
            && Glints(snapshot[..i + 1]) == Glints(snapshot[..i]) + [Glint(Decremented(snapshot[i]))]
  {
    AgedStep(snapshot, i);
    var at := |Aged(snapshot[..i])|;
    var next := Aged(snapshot[..i]) + [Advance(snapshot[i])] + snapshot[i + 1..];
    assert |live[at := Advance(snapshot[i])]| == |next|;
    forall k | 0 <= k < |next|
      ensures live[at := Advance(snapshot[i])][k] == next[k]
    {
    }
  }

  /** One tick of the sparkle list: spawn, then age. */
  function SparkleTick(s: seq<Sparkle>, c: Sparkle): seq<Sparkle> {
    Aged(Spawned(s, c))
  }

  /** Exactly one sparkle is appended, and it is the new one, iff fewer than 50 were present. */
  lemma SpawnOne(s: seq<Sparkle>, c: Sparkle)
    ensures |Spawned(s, c)| == |s| + 1 <==> |s| < Cap
    ensures |s| < Cap ==> Spawned(s, c) == s + [c]
    ensures |s| >= Cap ==> Spawned(s, c) == s
  {
  }

  /** A tick keeps the population within the cap and every sparkle live. */
  lemma TickPreservesLive(s: seq<Sparkle>, c: Sparkle)
    requires |s| <= Cap && AllLive(s) && SpawnRanges(c)
    ensures |SparkleTick(s, c)| <= Cap && AllLive(SparkleTick(s, c))
  {
    var t := Spawned(s, c);
    AgedSpec(t);
    forall k | 0 <= k < |Aged(t)|
      ensures Live(Aged(t)[k])
    {
      var sp := t[Kept(t)[k]];
      assert sp in s || sp == c;
      assert Kept(t)[k] in Kept(t);
    }
  }

  /** Ticks one after another, one spawn candidate per tick. */
  function Run(s: seq<Sparkle>, cs: seq<Sparkle>): seq<Sparkle>
    decreases |cs|
  {
    if cs == [] then s else SparkleTick(Run(s, cs[..|cs| - 1]), cs[|cs| - 1])
  }

  /** However many ticks run, the population never exceeds 50. */
  lemma {:induction false} RunWithinCap(s: seq<Sparkle>, cs: seq<Sparkle>)
    requires |s| <= Cap
    ensures |Run(s, cs)| <= Cap
    decreases |cs|
  {
    if cs != [] {
      var c := cs[|cs| - 1];
      RunWithinCap(s, cs[..|cs| - 1]);
      AgedSpec(Spawned(Run(s, cs[..|cs| - 1]), c));
    }
  }

  /**
   * Starting empty, when every candidate outlives the whole run of N <= 50
   * ticks nothing expires, so after n of those ticks n sparkles are alive.
   */
  lemma {:induction false} RunFromEmpty(cs: seq<Sparkle>, n: nat)
    requires |cs| <= n <= Cap
    requires forall i :: 0 <= i < |cs| ==> cs[i].lifetime > n as real
    ensures |Run([], cs)| == |cs|
    ensures forall i :: 0 <= i < |Run([], cs)| ==> Run([], cs)[i].lifetime > (n - |cs|) as real
    decreases |cs|
  {
    if cs != [] {
      var init := cs[..|cs| - 1];
      var c := cs[|cs| - 1];
      RunFromEmpty(init, n);
      var before := Run([], init);
      var t := Spawned(before, c);
      assert t == before + [c];
      AgedSpec(t);
      forall i | 0 <= i < |t|
        ensures !Expires(t[i]) && t[i].lifetime > (n - |init|) as real
      {
      }
      forall i | 0 <= i < |t|
        ensures i in Kept(t)
      {
      }
      KeptAll(t);
    }
  }

  /** When every position is kept, the positions are 0 .. |s|-1 and the pass loses nothing. */
  lemma {:induction false} KeptAll(s: seq<Sparkle>)
    requires forall i :: 0 <= i < |s| ==> !Expires(s[i])
    ensures Kept(s) == seq(|s|, i => i)
    ensures |Aged(s)| == |s|
    decreases |s|
  {
    if s != [] {
      var init := s[..|s| - 1];
      assert forall i :: 0 <= i < |init| ==> init[i] == s[i];
      KeptAll(init);
    }
  }

  /** The first 29 ticks after starting empty remove nothing: every spawn lives at least 30 ticks. */
  lemma FirstTicksNoExpiry(cs: seq<Sparkle>)
    requires |cs| <= 29
    requires forall i :: 0 <= i < |cs| ==> SpawnRanges(cs[i])
    ensures |Run([], cs)| == |cs|
  {
    RunFromEmpty(cs, 29);
  }

  // ---------------------------------------------------------------- the life of one sparkle

  /** The list after n aging passes with no spawning. */
  function AgedN(s: seq<Sparkle>, n: nat): seq<Sparkle> {
    if n == 0 then s else Aged(AgedN(s, n - 1))
  }

  /** The least integer not below x. */
  function Ceil(x: real): (c: int)
    ensures x <= c as real < x + 1.0
  {
    -((-x).Floor)
  }

  /** For a whole number n: n < x iff n < ceil(x), and ceil(x) is the one n with n - 1 < x <= n. */
  lemma CeilCompare(x: real, n: int)
    ensures (n as real) < x <==> n < Ceil(x)
    ensures ((n - 1) as real < x && x <= n as real) <==> n == Ceil(x)
  {
  }

  /**
   * A sparkle of lifetime L is still in the list after n passes iff n < L;
   * while it is, it has lost exactly n of its lifetime and kept its position.
   */
  lemma {:induction false} Lifecycle(sp: Sparkle, n: nat)
    requires 0.0 < sp.lifetime
    ensures |AgedN([sp], n)| == if (n as real) < sp.lifetime then 1 else 0
    ensures (n as real) < sp.lifetime ==>
              var q := AgedN([sp], n)[0];
              q.lifetime == sp.lifetime - n as real && q.x == sp.x && q.y == sp.y && q.z == sp.z
  {
    if n > 0 {
      Lifecycle(sp, n - 1);
      var before := AgedN([sp], n - 1);
      if |before| == 1 {
        assert before == [before[0]];
        AgedSingle(before[0]);
      }
    }
  }

  /**
   * Tick 1 spawns a sparkle of lifetime L and ages it at once; tick n ages
   * what n - 1 passes left. It is drawn on ticks 1 .. ceil(L) - 1, removed on
   * tick ceil(L) without being drawn there, and never drawn afterwards.
   */
  lemma SparkleSchedule(sp: Sparkle, n: nat)
    requires SpawnRanges(sp) && 1 <= n
    ensures |Glints(AgedN([sp], n - 1))| == 1 <==> n < Ceil(sp.lifetime)
    ensures (|AgedN([sp], n - 1)| == 1 && AgedN([sp], n) == []) <==> n == Ceil(sp.lifetime)
    ensures n >= Ceil(sp.lifetime) ==> Glints(AgedN([sp], n - 1)) == []
  {
    CeilCompare(sp.lifetime, n);
    Lifecycle(sp, n - 1);
    var before := AgedN([sp], n - 1);
    assert AgedN([sp], n) == Aged(before);
    if ((n - 1) as real) < sp.lifetime {
      var q := before[0];
      assert before == [q];
      AgedSingle(q);
      assert Expires(q) <==> sp.lifetime <= n as real;
    } else {
      assert before == [];
    }
  }

  /** The pass never lengthens a list. */
  lemma AgedShorter(s: seq<Sparkle>)
    ensures |Aged(s)| <= |s|
  {
    AgedSpec(s);
  }

  /** A spawn only ever appends: what precedes the tail of the list stays in front. */
  lemma SpawnedAfter(front: seq<Sparkle>, tail: seq<Sparkle>, c: Sparkle) returns (later: seq<Sparkle>)
    ensures Spawned(front + tail, c) == front + later
    ensures |later| <= |tail| + 1
  {
    later := if |front + tail| < Cap then tail + [c] else tail;
  }

  /** A tick over two leading parts and a tail ages each leading part on its own. */
  lemma TickAfter(a: seq<Sparkle>, b: seq<Sparkle>, tail: seq<Sparkle>, c: Sparkle) returns (later: seq<Sparkle>)
    ensures SparkleTick(a + b + tail, c) == Aged(a) + Aged(b) + later
    ensures |later| <= |tail| + 1
  {
    var spawned := SpawnedAfter(a + b, tail, c);
    AgedShorter(spawned);
    AgedAppend(a + b, spawned);
    AgedAppend(a, b);
    later := Aged(spawned);
  }

  /**
   * Inside a running population: a sparkle spawned by the first of a run of
   * ticks stays right after what is left of the earlier sparkles, and every
   * later spawn is appended after it, so after n ticks the list is the
   * earlier sparkles aged n times, then the sparkle aged n times, then the rest.
   */
  lemma {:induction false} RunKeepsPlace(s: seq<Sparkle>, cs: seq<Sparkle>, n: nat)
    requires |s| < Cap && 1 <= n <= |cs|
    ensures exists rest :: |rest| <= n - 1 && Run(s, cs[..n]) == AgedN(s, n) + AgedN([cs[0]], n) + rest
    decreases n
  {
    var before := Run(s, cs[..n - 1]);
    assert Run(s, cs[..n]) == SparkleTick(before, cs[n - 1]) by {
      assert cs[..n][..n - 1] == cs[..n - 1];
    }
    if n == 1 {
      assert before == s by {
        assert cs[..0] == [];
      }
      AgedAppend(s, [cs[0]]);
      assert Run(s, cs[..n]) == AgedN(s, n) + AgedN([cs[0]], n) + [];
    } else {
      RunKeepsPlace(s, cs, n - 1);
      var a, b := AgedN(s, n - 1), AgedN([cs[0]], n - 1);
      var rest :| |rest| <= n - 2 && before == a + b + rest;
      var later := TickAfter(a, b, rest, cs[n - 1]);
      assert Run(s, cs[..n]) == AgedN(s, n) + AgedN([cs[0]], n) + later;
    }
  }

  /**
   * What tick n of a run draws: first the spheres of what is left of the
   * earlier sparkles, then those of the sparkle spawned by tick 1, then
   * those of the later spawns.
   */
  lemma RunDraws(s: seq<Sparkle>, cs: seq<Sparkle>, n: nat)
    requires |s| < Cap && 1 <= n <= |cs|
    ensures exists rest :: |rest| <= n - 1 && Glints(Spawned(Run(s, cs[..n - 1]), cs[n - 1]))
                           == Glints(AgedN(s, n - 1)) + Glints(AgedN([cs[0]], n - 1)) + Glints(rest)
  {
    var before := Run(s, cs[..n - 1]);
    var a, b := AgedN(s, n - 1), AgedN([cs[0]], n - 1);
    var later: seq<Sparkle>;
    if n == 1 {
      assert cs[..0] == [];
      later := [];
      assert Spawned(before, cs[0]) == a + b + later;
    } else {
      RunKeepsPlace(s, cs, n - 1);
      var rest :| |rest| <= n - 2 && before == a + b + rest;
      later := SpawnedAfter(a + b, rest, cs[n - 1]);
    }
    AgedAppend(a + b, later);
    AgedAppend(a, b);
    assert Glints(Spawned(before, cs[n - 1])) == Glints(a) + Glints(b) + Glints(later);
  }

  /**
   * In a running population the sparkle spawned by tick 1 keeps its
   * schedule: among what tick n draws, its sphere is there on ticks
   * 1 .. ceil(L) - 1 and on no later tick.
   */
  lemma RunSchedule(s: seq<Sparkle>, cs: seq<Sparkle>, n: nat)
    requires |s| < Cap && 1 <= n <= |cs| && SpawnRanges(cs[0])
    ensures exists rest :: |rest| <= n - 1 && Glints(Spawned(Run(s, cs[..n - 1]), cs[n - 1]))
                           == Glints(AgedN(s, n - 1)) + Glints(AgedN([cs[0]], n - 1)) + Glints(rest)
    ensures n < Ceil(cs[0].lifetime) ==> |Glints(AgedN([cs[0]], n - 1))| == 1
    ensures n >= Ceil(cs[0].lifetime) ==> Glints(AgedN([cs[0]], n - 1)) == []
  {
    RunDraws(s, cs, n);
    SparkleSchedule(cs[0], n);
  }
}
