/** The greedy session packer of claim_queue. */
module Packing {
  // _pack_runs_by_session_budget in service/runs.py.

  import opened Common
  import opened RunRows

  datatype Candidate = Candidate(id: RunId, est: Option<int>)

  /** `est_seconds or 0` */
  function Cost(c: Candidate): int {
    if c.est.None? then 0 else c.est.value
  }

  /** Which candidates the scan takes, in order. The scan stops for good once
      `remaining` is used up. */
  function Mask(cs: seq<Candidate>, session: int, remaining: int): (mask: seq<bool>)
    ensures |mask| == |cs|
  {
    if cs == [] then []
    else if Cost(cs[0]) > session || Cost(cs[0]) > remaining then [false] + Mask(cs[1..], session, remaining)
    else if remaining - Cost(cs[0]) <= 0 then [true] + seq(|cs| - 1, _ => false)
    else [true] + Mask(cs[1..], session, remaining - Cost(cs[0]))
  }

  /** The ids picked out by a mask, in candidate order. */
  function Select(cs: seq<Candidate>, mask: seq<bool>): seq<RunId>
    requires |mask| == |cs|
  {
    if cs == [] then [] else (if mask[0] then [cs[0].id] else []) + Select(cs[1..], mask[1..])
  }

  /** The total cost of the picked candidates. */
  function Spent(cs: seq<Candidate>, mask: seq<bool>): int
    requires |mask| == |cs|
  {
    if cs == [] then 0 else (if mask[0] then Cost(cs[0]) else 0) + Spent(cs[1..], mask[1..])
  }

  function Pack(cs: seq<Candidate>, session: int): seq<RunId> {
    Select(cs, Mask(cs, session, session))
  }

  predicate NonNegative(cs: seq<Candidate>) {
    forall c | c in cs :: Cost(c) >= 0
  }

  /** Every prefix of the candidate list costs no more than the budget. */
  ghost predicate Feasible(cs: seq<Candidate>, mask: seq<bool>, budget: int) {
    && |mask| == |cs|
    && forall k | 0 <= k <= |cs| :: Spent(cs[..k], mask[..k]) <= budget
  }

  /** Lexicographic order on selections: taking an earlier candidate wins. */
  predicate LexAtLeast(a: seq<bool>, b: seq<bool>)
    requires |a| == |b|
  {
    a == [] || (a[0] && !b[0]) || (a[0] == b[0] && LexAtLeast(a[1..], b[1..]))
  }

  /** A free candidate comes after one whose choice uses up the session. */
  predicate StarvesFree(cs: seq<Candidate>, remaining: int) {
    cs != [] &&
    if Cost(cs[0]) > remaining then StarvesFree(cs[1..], remaining)
    else if Cost(cs[0]) == remaining then exists c :: c in cs[1..] && Cost(c) == 0
    else StarvesFree(cs[1..], remaining - Cost(cs[0]))
  }

  // ----- The loop -----

  /** The scan in place: `claimed` grows while `remaining` shrinks. */
  method PackRunsBySessionBudget(cs: seq<Candidate>, session: int) returns (claimed: seq<RunId>)
    ensures claimed == Pack(cs, session)
  {
    claimed := [];
    var remaining := session;
    var i := 0;
    while i < |cs|
      invariant 0 <= i <= |cs|
      invariant Pack(cs, session) == claimed + Taken(cs[i..], session, remaining)
    {
      var cost := Cost(cs[i]);
      assert cs[i..][0] == cs[i] && cs[i..][1..] == cs[i + 1..];
      TakenStep(cs[i..], session, remaining);
      if cost > session || cost > remaining {
        i := i + 1;
        continue;
      }
      claimed := claimed + [cs[i].id];
      remaining := remaining - cost;
      if remaining <= 0 { return; }
      i := i + 1;
    }
  }

  /** What the scan still takes from `cs`. */
  function Taken(cs: seq<Candidate>, session: int, remaining: int): seq<RunId> {
    Select(cs, Mask(cs, session, remaining))
  }

  lemma {:induction false} TakenStep(cs: seq<Candidate>, session: int, remaining: int)
    requires cs != []
    ensures var c, rest := Cost(cs[0]), cs[1..];
      Taken(cs, session, remaining) ==
        if c > session || c > remaining then Taken(rest, session, remaining)
        else if remaining - c <= 0 then [cs[0].id]
        else [cs[0].id] + Taken(rest, session, remaining - c)
  {
    var c, rest := Cost(cs[0]), cs[1..];
    var mask := Mask(cs, session, remaining);
    if c > session || c > remaining {
      assert mask[1..] == Mask(rest, session, remaining);
    } else if remaining - c <= 0 {
      assert mask[1..] == seq(|rest|, _ => false);
      SelectNone(rest);
    } else {
      assert mask[1..] == Mask(rest, session, remaining - c);
    }
  }

  lemma {:induction false} SelectNone(cs: seq<Candidate>)
    ensures Select(cs, seq(|cs|, _ => false)) == []
    ensures Spent(cs, seq(|cs|, _ => false)) == 0
  {
    if cs != [] {
      assert seq(|cs|, _ => false)[1..] == seq(|cs[1..]|, _ => false);
      SelectNone(cs[1..]);
    }
  }

  // ----- What the selection is -----

  /** Costs split at any cut of the list. */
  lemma {:induction false} SpentSplit(cs: seq<Candidate>, mask: seq<bool>, k: nat)
    requires |mask| == |cs| && k <= |cs|
    ensures Spent(cs, mask) == Spent(cs[..k], mask[..k]) + Spent(cs[k..], mask[k..])
  {
    if k > 0 {
      SpentSplit(cs[1..], mask[1..], k - 1);
      assert cs[..k][1..] == cs[1..][..k - 1] && mask[..k][1..] == mask[1..][..k - 1];
      assert cs[k..] == cs[1..][k - 1..] && mask[k..] == mask[1..][k - 1..];
    } else {
      assert cs[k..] == cs && mask[k..] == mask;
    }
  }

  lemma {:induction false} SpentNonNegative(cs: seq<Candidate>, mask: seq<bool>)
    requires |mask| == |cs| && NonNegative(cs)
    ensures Spent(cs, mask) >= 0
  {
    if cs != [] { SpentNonNegative(cs[1..], mask[1..]); }
  }

  /** With non-negative costs a selection is feasible exactly when its total fits. */
  lemma {:induction false} FeasibleIsTotal(cs: seq<Candidate>, mask: seq<bool>, budget: int)
    requires |mask| == |cs| && NonNegative(cs)
    ensures Feasible(cs, mask, budget) <==> Spent(cs, mask) <= budget
  {
    assert cs[..|cs|] == cs && mask[..|cs|] == mask;
    forall k | 0 <= k <= |cs| ensures Spent(cs[..k], mask[..k]) <= Spent(cs, mask) {
      SpentSplit(cs, mask, k);
      SpentNonNegative(cs[k..], mask[k..]);
    }
  }

  /** Whatever the estimates, no prefix of the scan spends more than it has left. */
  lemma {:induction false} PrefixFits(cs: seq<Candidate>, session: int, remaining: int, k: nat)
    requires remaining >= 0 && k <= |cs|
    ensures Spent(cs[..k], Mask(cs, session, remaining)[..k]) <= remaining
  {
    if k > 0 {
      var mask := Mask(cs, session, remaining);
      var c := Cost(cs[0]);
      assert cs[..k][1..] == cs[1..][..k - 1] && mask[..k][1..] == mask[1..][..k - 1];
      if c > session || c > remaining {
        PrefixFits(cs[1..], session, remaining, k - 1);
      } else if remaining - c <= 0 {
        assert mask[1..][..k - 1] == seq(|cs[1..][..k - 1]|, _ => false);
        SelectNone(cs[1..][..k - 1]);
      } else {
        PrefixFits(cs[1..], session, remaining - c, k - 1);
      }
    }
  }

  /** The packer's list is the in-order selection of a mask that is feasible for
      estimates of any sign, exactly when the session is not negative. */
  lemma {:induction false} PackIsFeasible(cs: seq<Candidate>, session: int)
    ensures Pack(cs, session) == Select(cs, Mask(cs, session, session))
    ensures Feasible(cs, Mask(cs, session, session), session) <==> session >= 0
  {
    var mask := Mask(cs, session, session);
    assert cs[..0] == [] && mask[..0] == [];
    if session >= 0 {
      forall k | 0 <= k <= |cs| ensures Spent(cs[..k], mask[..k]) <= session { PrefixFits(cs, session, session, k); }
    }
  }

  /** Even in a negative session a claim that takes anything takes no more than the
      session, in total and run by run. */
  lemma {:induction false} TakenFits(cs: seq<Candidate>, session: int, remaining: int)
    ensures var mask := Mask(cs, session, remaining);
      && (forall i | 0 <= i < |cs| && mask[i] :: Cost(cs[i]) <= session)
      && ((exists i :: 0 <= i < |cs| && mask[i]) ==> Spent(cs, mask) <= remaining)
      && ((forall i | 0 <= i < |cs| :: !mask[i]) ==> Spent(cs, mask) == 0)
  {
    if cs != [] {
      var c, rest := Cost(cs[0]), cs[1..];
      var mask := Mask(cs, session, remaining);
      if c > session || c > remaining {
        TakenFits(rest, session, remaining);
        assert mask[1..] == Mask(rest, session, remaining);
      } else if remaining - c <= 0 {
        SelectNone(rest);
        assert mask[1..] == seq(|rest|, _ => false);
        assert mask[0];
      } else {
        TakenFits(rest, session, remaining - c);
        assert mask[1..] == Mask(rest, session, remaining - c);
        assert mask[0];
      }
      assert forall i | 0 < i < |cs| :: mask[i] == mask[1..][i - 1] && cs[i] == rest[i - 1];
      assert forall i | 0 <= i < |rest| :: mask[1..][i] == mask[i + 1];
    }
  }

  /** Nothing with a positive cost that would still fit the final remainder is left out. */
  lemma {:induction false} LeftOutDoesNotFit(cs: seq<Candidate>, session: int, remaining: int, i: nat)
    requires NonNegative(cs) && 0 <= remaining <= session && i < |cs|
    requires !Mask(cs, session, remaining)[i] && Cost(cs[i]) > 0
    ensures Cost(cs[i]) > remaining - Spent(cs, Mask(cs, session, remaining))
  {
    var mask := Mask(cs, session, remaining);
    var c := Cost(cs[0]);
    if c > remaining {
      if i == 0 {
        SpentNonNegative(cs, mask);
      } else {
        LeftOutDoesNotFit(cs[1..], session, remaining, i - 1);
      }
    } else if remaining - c <= 0 {
      SelectNone(cs[1..]);
      assert mask[1..] == seq(|cs[1..]|, _ => false);
    } else {
      LeftOutDoesNotFit(cs[1..], session, remaining - c, i - 1);
    }
  }

  /** No candidate with a positive cost that fits the final remainder is left out. */
  predicate LeavesNoRoom(cs: seq<Candidate>, session: int) {
    var mask := Mask(cs, session, session);
    forall i | 0 <= i < |cs| && !mask[i] && Cost(cs[i]) > 0 :: Cost(cs[i]) > session - Spent(cs, mask)
  }

  lemma {:induction false} PackIsMaximal(cs: seq<Candidate>, session: int)
    requires NonNegative(cs) && session >= 0
    ensures LeavesNoRoom(cs, session)
  {
    var mask := Mask(cs, session, session);
    forall i | 0 <= i < |cs| && !mask[i] && Cost(cs[i]) > 0
      ensures Cost(cs[i]) > session - Spent(cs, mask)
    {
      LeftOutDoesNotFit(cs, session, session, i);
    }
  }

  predicate CostsAmong(cs: seq<Candidate>, allowed: int -> bool) {
    forall c | c in cs :: allowed(Cost(c))
  }

  /** The estimates for which the packer never leaves room: those without negative
      values, or without positive ones. Any negative value beside a positive one
      gives a list and a session where a run that fits is left out. */
  lemma {:induction false} NeverLeavesRoomExactly(allowed: int -> bool)
    ensures (forall cs, session: int | CostsAmong(cs, allowed) && session >= 0 :: LeavesNoRoom(cs, session))
            <==> (forall c | c < 0 :: !allowed(c)) || (forall c | c > 0 :: !allowed(c))
  {
    if neg, pos :| neg < 0 < pos && allowed(neg) && allowed(pos) {
      var first, second := Candidate(0, Some(neg)), Candidate(1, Some(pos));
      var cs := [first, second];
      var session := pos - 1;
      assert cs[1..] == [second] && [second][1..] == [];
      var mask := Mask(cs, session, session);
      assert Mask([second], session, session - neg) == [false] + Mask([], session, session - neg);
      assert mask == [true] + Mask([second], session, session - neg);
      assert mask == [true, false] && mask[1..] == [false];
      assert Spent([second], [false]) == 0;
      assert Spent(cs, mask) == neg;
      assert CostsAmong(cs, allowed) && !mask[1] && Cost(cs[1]) == pos;
      assert !LeavesNoRoom(cs, session);
    } else {
      forall cs, session: int | CostsAmong(cs, allowed) && session >= 0 ensures LeavesNoRoom(cs, session) {
        if forall c | c < 0 :: !allowed(c) { PackIsMaximal(cs, session); }
      }
    }
  }

  lemma {:induction false} MaskBeats(cs: seq<Candidate>, session: int, remaining: int, other: seq<bool>)
    requires NonNegative(cs) && 0 <= remaining <= session && !StarvesFree(cs, remaining)
    requires |other| == |cs| && Spent(cs, other) <= remaining
    ensures LexAtLeast(Mask(cs, session, remaining), other)
  {
    if cs != [] {
      var c := Cost(cs[0]);
      SpentNonNegative(cs[1..], other[1..]);
      if c > remaining {
        MaskBeats(cs[1..], session, remaining, other[1..]);
      } else if other[0] {
        if c == remaining {
          NoneBeats(cs[1..], other[1..]);
          assert Mask(cs, session, remaining)[1..] == seq(|cs[1..]|, _ => false);
        } else {
          MaskBeats(cs[1..], session, remaining - c, other[1..]);
        }
      }
    }
  }

  /** With nothing left to spend and nothing free, the empty selection is the only one. */
  lemma {:induction false} NoneBeats(cs: seq<Candidate>, other: seq<bool>)
    requires NonNegative(cs) && |other| == |cs| && Spent(cs, other) <= 0
    requires forall c | c in cs :: Cost(c) != 0
    ensures LexAtLeast(seq(|cs|, _ => false), other)
  {
    if cs != [] {
      SpentNonNegative(cs[1..], other[1..]);
      assert cs[0] in cs;
      NoneBeats(cs[1..], other[1..]);
      assert seq(|cs|, _ => false)[1..] == seq(|cs[1..]|, _ => false);
    }
  }

  /** A selection that beats the packer's when a free candidate is starved:
      follow the packer up to the point it stops, then take one free candidate. */
  function Rival(cs: seq<Candidate>, remaining: int): (m: seq<bool>)
    requires StarvesFree(cs, remaining)
    ensures |m| == |cs|
  {
    if Cost(cs[0]) > remaining then [false] + Rival(cs[1..], remaining)
    else if Cost(cs[0]) == remaining then [true] + OneFree(cs[1..])
    else [true] + Rival(cs[1..], remaining - Cost(cs[0]))
  }

  function OneFree(cs: seq<Candidate>): (m: seq<bool>)
    requires exists c :: c in cs && Cost(c) == 0
    ensures |m| == |cs|
  {
    if Cost(cs[0]) == 0 then [true] + seq(|cs| - 1, _ => false) else [false] + OneFree(cs[1..])
  }

  lemma {:induction false} OneFreeBeatsNone(cs: seq<Candidate>)
    requires exists c :: c in cs && Cost(c) == 0
    ensures Spent(cs, OneFree(cs)) == 0
    ensures !LexAtLeast(seq(|cs|, _ => false), OneFree(cs))
  {
    assert seq(|cs|, _ => false)[1..] == seq(|cs[1..]|, _ => false);
    if Cost(cs[0]) == 0 {
      SelectNone(cs[1..]);
      assert OneFree(cs)[1..] == seq(|cs[1..]|, _ => false);
    } else {
      OneFreeBeatsNone(cs[1..]);
    }
  }

  lemma {:induction false} RivalBeatsMask(cs: seq<Candidate>, session: int, remaining: int)
    requires NonNegative(cs) && 0 <= remaining <= session && StarvesFree(cs, remaining)
    ensures Spent(cs, Rival(cs, remaining)) <= remaining
    ensures !LexAtLeast(Mask(cs, session, remaining), Rival(cs, remaining))
  {
    var c := Cost(cs[0]);
    if c > remaining {
      RivalBeatsMask(cs[1..], session, remaining);
    } else if c == remaining {
      OneFreeBeatsNone(cs[1..]);
      assert Mask(cs, session, remaining)[1..] == seq(|cs[1..]|, _ => false);
    } else {
      RivalBeatsMask(cs[1..], session, remaining - c);
    }
  }

  /** The packer's choice is the lexicographically greatest feasible selection
      exactly when no free candidate comes after the session is used up. */
  lemma {:induction false} PackIsLexGreatest(cs: seq<Candidate>, session: int)
    requires NonNegative(cs) && session >= 0
    ensures (forall m | Feasible(cs, m, session) :: LexAtLeast(Mask(cs, session, session), m))
            <==> !StarvesFree(cs, session)
  {
    if StarvesFree(cs, session) {
      var rival := Rival(cs, session);
      RivalBeatsMask(cs, session, session);
      FeasibleIsTotal(cs, rival, session);
      assert Feasible(cs, rival, session);
    } else {
      forall m | Feasible(cs, m, session) ensures LexAtLeast(Mask(cs, session, session), m) {
        FeasibleIsTotal(cs, m, session);
        MaskBeats(cs, session, session, m);
      }
    }
  }

  /** Positive estimates never starve a free candidate, so there the packer is
      always the lexicographically greatest feasible selection. */
  lemma {:induction false} PositiveNeverStarves(cs: seq<Candidate>, remaining: int)
    requires forall c | c in cs :: Cost(c) > 0
    ensures !StarvesFree(cs, remaining)
  {
    if cs != [] {
      PositiveNeverStarves(cs[1..], remaining);
      PositiveNeverStarves(cs[1..], remaining - Cost(cs[0]));
    }
  }

  // ----- Candidates that can never fit are invisible -----

  lemma {:induction false} HopelessAreInvisible(cs: seq<Candidate>, session: int, remaining: int, p: Candidate -> bool)
    requires forall c | c in cs :: !p(c) ==> Cost(c) > session
    ensures Taken(Filter(p, cs), session, remaining) == Taken(cs, session, remaining)
  {
    if cs != [] {
      var c, rest := cs[0], cs[1..];
      TakenStep(cs, session, remaining);
      if !p(c) {
        assert c in cs;
        HopelessAreInvisible(rest, session, remaining, p);
      } else {
        var kept := Filter(p, rest);
        assert Filter(p, cs) == [c] + kept && ([c] + kept)[1..] == kept;
        TakenStep([c] + kept, session, remaining);
        HopelessAreInvisible(rest, session, if Cost(c) > session || Cost(c) > remaining then remaining else remaining - Cost(c), p);
      }
    }
  }

  lemma {:induction false} SelectIsSubset(cs: seq<Candidate>, mask: seq<bool>, id: RunId)
    requires |mask| == |cs|
    requires id in Select(cs, mask)
    ensures exists i :: 0 <= i < |cs| && mask[i] && cs[i].id == id
  {
    if mask[0] && cs[0].id == id {
    } else {
      SelectIsSubset(cs[1..], mask[1..], id);
      var j :| 0 <= j < |cs[1..]| && mask[1..][j] && cs[1..][j].id == id;
      assert mask[j + 1] && cs[j + 1].id == id;
    }
  }

  lemma {:induction false} PackOneFree(id: RunId, session: int)
    requires session > 0
    ensures Pack([Candidate(id, None)], session) == [id]
  {
    var cs := [Candidate(id, None)];
    assert Mask(cs, session, session) == [true] + Mask(cs[1..], session, session);
    assert Select(cs, [true] + []) == [id] + Select(cs[1..], []);
  }
}
