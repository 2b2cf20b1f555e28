/** The order in which the extension manager initialises what it can: passes over the waiting extensions by
    priority, each taking those whose dependencies are initialised by then. */
module EagerOrder {
  import opened StableSort
  import opened ExtensionOrder

  /** Every required and every optional dependency of `e` is in `names`. */
  ghost predicate AllMet(e: Extension, names: set<string>) {
    forall d :: d in e.deps || d in e.opts ==> d in names
  }

  predicate IsWaiting(e: Extension, names: set<string>) { e.enabled && e.name !in names }

  /** The enabled extensions not in `names`, in the order of the passes. */
  function Waiting(registered: seq<Extension>, names: set<string>): seq<Extension> {
    Sort(Filter(registered, (e: Extension) => IsWaiting(e, names)), HigherPriority)
  }

  /** Descending priority, and registration order among equals. */
  lemma WaitingByPriority(registered: seq<Extension>, names: set<string>, priority: int)
    ensures var waiting := Waiting(registered, names);
      && (forall e :: e in waiting <==> e in registered && e.enabled && e.name !in names)
      && (forall i, j :: 0 <= i < j < |waiting| ==> waiting[i].priority >= waiting[j].priority)
      && SortedBy(waiting, HigherPriority)
      && var same := (e: Extension) => e.priority == priority;
         Filter(waiting, same) == Filter(Filter(registered, (e: Extension) => IsWaiting(e, names)), same)
  {
    var waiting := Filter(registered, (e: Extension) => IsWaiting(e, names));
    FilterIsSubsequence(registered, (e: Extension) => IsWaiting(e, names));
    SortSorts(waiting, HigherPriority);
    SortStable(waiting, HigherPriority, (e: Extension) => e.priority == priority);
    PermutationKeepsMembers(waiting, Sort(waiting, HigherPriority));
  }

  /** What one pass over `pending` initialises when `names` are initialised before. */
  ghost function Taken(pending: seq<Extension>, names: set<string>): (taken: seq<Extension>)
    ensures |taken| <= |pending|
  {
    if pending == [] then []
    else
      var before, last := Taken(pending[..|pending| - 1], names), pending[|pending| - 1];
      before + if AllMet(last, names + Names(before)) then [last] else []
  }

  /** What it leaves for the next. */
  ghost function Left(pending: seq<Extension>, names: set<string>): (left: seq<Extension>)
    ensures |left| == |pending| - |Taken(pending, names)|
  {
    if pending == [] then []
    else
      var front, last := pending[..|pending| - 1], pending[|pending| - 1];
      Left(front, names) + if AllMet(last, names + Names(Taken(front, names))) then [] else [last]
  }

  /** Pass after pass, until one takes nothing. */
  ghost function EagerSequence(pending: seq<Extension>, names: set<string>): seq<Extension>
    decreases |pending|
  {
    var taken := Taken(pending, names);
    if taken == [] then [] else taken + EagerSequence(Left(pending, names), names + Names(taken))
  }

  /** The names of what stands at places `at` of `pending` before `k`. */
  ghost function NamesAt(pending: seq<Extension>, at: seq<nat>, k: nat): set<string> {
    set p | p in at && p < k && p < |pending| :: pending[p].name
  }

  lemma TakenNames(pending: seq<Extension>, at: seq<nat>, k: nat, taken: seq<Extension>)
    requires |at| == |taken| && k <= |pending|
    requires forall i :: 0 <= i < |at| ==> at[i] < k && taken[i] == pending[at[i]]
    ensures NamesAt(pending, at, k) == Names(taken)
  {
    forall p | p in at ensures p < k && pending[p] in taken {
      var i :| 0 <= i < |at| && at[i] == p;
      assert taken[i] == pending[p];
    }
    forall e | e in taken ensures e.name in NamesAt(pending, at, k) {
      var i :| 0 <= i < |at| && taken[i] == e;
      assert at[i] in at;
    }
  }

  lemma EarlierNames(pending: seq<Extension>, front: seq<Extension>, at: seq<nat>, more: seq<nat>, k: nat)
    requires front <= pending && k <= |front| && forall p :: p in more ==> p >= k
    ensures NamesAt(pending, at + more, k) == NamesAt(front, at, k)
  {
    assert forall p :: p in at + more <==> p in at || p in more;
  }

  /** The places of `at` are those whose dependencies are initialised when a pass reaches them. */
  ghost predicate TakesWhatIsMet(pending: seq<Extension>, names: set<string>, at: seq<nat>) {
    && (forall i, j :: 0 <= i < j < |at| ==> at[i] < at[j]) && (forall p :: p in at ==> p < |pending|)
    && forall k :: 0 <= k < |pending| ==> (k in at <==> AllMet(pending[k], names + NamesAt(pending, at, k)))
  }

  lemma OneMoreLooked(front: seq<Extension>, names: set<string>, at: seq<nat>, last: Extension, more: seq<nat>)
    requires TakesWhatIsMet(front, names, at)
    requires more == if AllMet(last, names + NamesAt(front, at, |front|)) then [|front|] else []
    ensures TakesWhatIsMet(front + [last], names, at + more)
  {
    var pending, at' := front + [last], at + more;
    forall k | 0 <= k < |pending| ensures k in at' <==> AllMet(pending[k], names + NamesAt(pending, at', k)) {
      EarlierNames(pending, front, at, more, k);
      assert k in at' <==> k in at || k in more;
    }
    forall i, j | 0 <= i < j < |at'| ensures at'[i] < at'[j] {
      assert at'[i] == at[i] && at[i] in at;
    }
  }

  ghost predicate StandAt(pending: seq<Extension>, at: seq<nat>, taken: seq<Extension>) {
    |at| == |taken| && forall i :: 0 <= i < |at| ==> at[i] < |pending| && taken[i] == pending[at[i]]
  }

  lemma OneMoreStands(front: seq<Extension>, at: seq<nat>, taken: seq<Extension>, last: Extension)
    requires StandAt(front, at, taken)
    ensures StandAt(front + [last], at, taken) && StandAt(front + [last], at + [|front|], taken + [last])
  {}

  /** A pass takes, in the order of `pending`, exactly those whose dependencies are initialised when it
      reaches them. */
  lemma {:induction false} PassTakesWhatIsMet(pending: seq<Extension>, names: set<string>) returns (at: seq<nat>)
    ensures TakesWhatIsMet(pending, names, at) && StandAt(pending, at, Taken(pending, names))
  {
    if pending == [] {
      at := [];
    } else {
      var front, last := pending[..|pending| - 1], pending[|pending| - 1];
      var taken := Taken(front, names);
      assert pending == front + [last];
      at := PassTakesWhatIsMet(front, names);
      TakenNames(front, at, |front|, taken);
      OneMoreStands(front, at, taken, last);
      if AllMet(last, names + Names(taken)) {
        OneMoreLooked(front, names, at, last, [|front|]);
        at := at + [|front|];
      } else {
        OneMoreLooked(front, names, at, last, []);
        assert at + [] == at && taken + [] == taken;
      }
    }
  }

  lemma {:induction false} TakenStarts(pending: seq<Extension>, names: set<string>, p: nat)
    requires p <= |pending|
    ensures Taken(pending[..p], names) <= Taken(pending, names)
  {
    if p == |pending| {
      assert pending[..p] == pending;
    } else {
      var front := pending[..|pending| - 1];
      TakenStarts(front, names, p);
      assert front[..p] == pending[..p];
    }
  }

  lemma {:induction false} TakenGrows(pending: seq<Extension>, names: set<string>, p: nat)
    requires p <= |pending|
    ensures Taken(pending[..p], names) <= Taken(pending, names)
    ensures forall e :: e in Taken(pending, names)[|Taken(pending[..p], names)|..] ==> e in pending[p..]
  {
    if p == |pending| {
      assert pending[..p] == pending;
    } else {
      var front, last := pending[..|pending| - 1], pending[|pending| - 1];
      TakenGrows(front, names, p);
      assert front[..p] == pending[..p] && pending[p..] == front[p..] + [last];
    }
  }

  /** What is left was not met when the pass reached it. */
  lemma {:induction false} LeftWasUnmet(pending: seq<Extension>, names: set<string>, e: Extension) returns (p: nat)
    requires e in Left(pending, names)
    ensures p < |pending| && pending[p] == e && !AllMet(e, names + Names(Taken(pending[..p], names)))
  {
    var front, last := pending[..|pending| - 1], pending[|pending| - 1];
    if e in Left(front, names) {
      p := LeftWasUnmet(front, names, e);
      assert front[..p] == pending[..p];
    } else {
      p := |front|;
    }
  }

  lemma LastStaysLast(front: seq<Extension>, last: Extension, s: seq<Extension>)
    requires SortedBy(front + [last], HigherPriority) && SortedBy(s, HigherPriority)
    requires forall e :: e in s ==> e in front
    ensures SortedBy(s + [last], HigherPriority)
  {
    forall i | 0 <= i < |s| ensures !HigherPriority(last, s[i]) {
      assert s[i] in front;
      var k :| 0 <= k < |front| && front[k] == s[i];
      assert (front + [last])[k] == s[i] && (front + [last])[|front|] == last;
    }
  }

  lemma {:induction false} PassKeepsOrder(pending: seq<Extension>, names: set<string>)
    requires SortedBy(pending, HigherPriority)
    ensures SortedBy(Taken(pending, names), HigherPriority) && SortedBy(Left(pending, names), HigherPriority)
    ensures forall e :: e in Taken(pending, names) || e in Left(pending, names) ==> e in pending
  {
    if pending != [] {
      var front, last := pending[..|pending| - 1], pending[|pending| - 1];
      assert pending == front + [last];
      PassKeepsOrder(front, names);
      LastStaysLast(front, last, Taken(front, names));
      LastStaysLast(front, last, Left(front, names));
    }
  }

  lemma {:induction false} PassKeepsMembers(pending: seq<Extension>, names: set<string>)
    ensures forall e :: e in pending <==> e in Taken(pending, names) || e in Left(pending, names)
  {
    if pending != [] {
      var front, last := pending[..|pending| - 1], pending[|pending| - 1];
      assert pending == front + [last];
      PassKeepsMembers(front, names);
    }
  }

  lemma {:induction false} SequenceIsWithin(pending: seq<Extension>, names: set<string>)
    requires SortedBy(pending, HigherPriority)
    ensures forall e :: e in EagerSequence(pending, names) ==> e in pending
    decreases |pending|
  {
    PassKeepsOrder(pending, names);
    if Taken(pending, names) != [] {
      SequenceIsWithin(Left(pending, names), names + Names(Taken(pending, names)));
    }
  }

  lemma NamesAdd(a: seq<Extension>, b: seq<Extension>)
    ensures Names(a + b) == Names(a) + Names(b)
  {
    assert forall e :: e in a + b <==> e in a || e in b;
  }

  /** When the turn of `e` came, after the first `k` of `s`, it still lacked a dependency; the ones from
      there to place `i` are of no higher priority. */
  ghost predicate Lacked(s: seq<Extension>, names: set<string>, i: nat, e: Extension, k: nat) {
    && k <= i < |s| && !AllMet(e, names + Names(s[..k]))
    && forall n :: k <= n <= i ==> s[n].priority <= e.priority
  }

  lemma LackedThere(taken: seq<Extension>, rest: seq<Extension>, names: set<string>, i: nat, e: Extension, k: nat)
    ensures Lacked(taken, names, i, e, k) ==> Lacked(taken + rest, names, i, e, k)
    ensures Lacked(rest, names + Names(taken), i, e, k) ==>
              Lacked(taken + rest, names, |taken| + i, e, |taken| + k)
  {
    var s := taken + rest;
    if Lacked(taken, names, i, e, k) { assert s[..k] == taken[..k]; }
    if Lacked(rest, names + Names(taken), i, e, k) {
      assert s[..|taken| + k] == taken + rest[..k];
      NamesAdd(taken, rest[..k]);
      assert names + Names(taken) + Names(rest[..k]) == names + Names(s[..|taken| + k]);
      forall n | |taken| + k <= n <= |taken| + i ensures s[n].priority <= e.priority {
        assert s[n] == rest[n - |taken|];
      }
    }
  }

  /** An extension of higher priority comes later only if it still lacked a dependency at its turn. */
  lemma {:induction false} OnlyUnmetComesLater(pending: seq<Extension>, names: set<string>, s: seq<Extension>,
                                               i: nat, j: nat)
    returns (k: nat)
    requires SortedBy(pending, HigherPriority) && s == EagerSequence(pending, names)
    requires i < j < |s| && s[j].priority > s[i].priority
    ensures Lacked(s, names, i, s[j], k)
    decreases |pending|, 1
  {
    if i < |Taken(pending, names)| {
      LaterIsLeft(pending, names, s, i, j);
      k := LeftComesLater(pending, names, i, s[j]);
      LackedThere(Taken(pending, names), s[|Taken(pending, names)|..], names, i, s[j], k);
      assert s == Taken(pending, names) + s[|Taken(pending, names)|..];
    } else {
      var taken, left, rest := SequenceUnfolds(pending, names, s);
      k := UnmetInLaterPass(pending, names, s, taken, left, rest, i, j);
    }
  }

  lemma {:induction false} UnmetInLaterPass(pending: seq<Extension>, names: set<string>, s: seq<Extension>,
                                            taken: seq<Extension>, left: seq<Extension>, rest: seq<Extension>,
                                            i: nat, j: nat)
    returns (k: nat)
    requires |left| < |pending| && SortedBy(left, HigherPriority) && s == taken + rest
    requires rest == EagerSequence(left, names + Names(taken))
    requires |taken| <= i < j < |s| && s[j].priority > s[i].priority
    ensures Lacked(s, names, i, s[j], k)
    decreases |pending|, 0
  {
    k := OnlyUnmetComesLater(left, names + Names(taken), rest, i - |taken|, j - |taken|);
    LackedThere(taken, rest, names, i - |taken|, s[j], k);
    k := |taken| + k;
  }

  lemma SequenceStarts(pending: seq<Extension>, names: set<string>)
    ensures Taken(pending, names) <= EagerSequence(pending, names)
    ensures Taken(pending, names) == [] ==> EagerSequence(pending, names) == []
    ensures Taken(pending, names) != [] ==>
              EagerSequence(pending, names)
              == Taken(pending, names) + EagerSequence(Left(pending, names), names + Names(Taken(pending, names)))
  {}

  lemma SequenceUnfolds(pending: seq<Extension>, names: set<string>, s: seq<Extension>)
    returns (taken: seq<Extension>, left: seq<Extension>, rest: seq<Extension>)
    requires SortedBy(pending, HigherPriority) && s == EagerSequence(pending, names) && s != []
    ensures taken == Taken(pending, names) && |left| < |pending| && SortedBy(left, HigherPriority)
    ensures s == taken + rest && rest == EagerSequence(left, names + Names(taken))
  {
    PassKeepsOrder(pending, names);
    taken, left := Taken(pending, names), Left(pending, names);
    rest := EagerSequence(left, names + Names(taken));
  }

  lemma LaterIsLeft(pending: seq<Extension>, names: set<string>, s: seq<Extension>, i: nat, j: nat)
    requires SortedBy(pending, HigherPriority) && s == EagerSequence(pending, names)
    requires i < j < |s| && i < |Taken(pending, names)| && s[j].priority > s[i].priority
    ensures s[j] in Left(pending, names)
  {
    var taken := Taken(pending, names);
    PassKeepsOrder(pending, names);
    assert j < |taken| ==> !HigherPriority(taken[j], taken[i]);
    SequenceIsWithin(Left(pending, names), names + Names(taken));
  }

  lemma LeftComesLater(pending: seq<Extension>, names: set<string>, i: nat, e: Extension) returns (k: nat)
    requires SortedBy(pending, HigherPriority) && e in Left(pending, names) && i < |Taken(pending, names)|
    requires e.priority > Taken(pending, names)[i].priority
    ensures Lacked(Taken(pending, names), names, i, e, k)
  {
    var taken := Taken(pending, names);
    var p := LeftWasUnmet(pending, names, e);
    TakenGrows(pending, names, p);
    k := |Taken(pending[..p], names)|;
    assert taken[..k] == Taken(pending[..p], names);
    if i < k { TakenBefore(pending, names, p, i); }
    forall n | k <= n <= i ensures taken[n].priority <= e.priority {
      assert taken[n] == taken[k..][n - k];
      assert taken[n] in pending[p..];
      var q :| 0 <= q < |pending[p..]| && pending[p..][q] == taken[n];
      assert q > 0 ==> !HigherPriority(pending[p + q], pending[p]);
    }
  }

  lemma TakenBefore(pending: seq<Extension>, names: set<string>, p: nat, i: nat)
    requires SortedBy(pending, HigherPriority) && p < |pending| && i < |Taken(pending[..p], names)|
    ensures Taken(pending[..p], names)[i].priority >= pending[p].priority
  {
    PassKeepsOrder(pending[..p], names);
    assert Taken(pending[..p], names)[i] in pending[..p];
  }
}
