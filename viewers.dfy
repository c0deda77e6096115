/** The viewer list as a sequence: Python's `list.remove`, and the two
    halves into which one broadcast splits the list (viewers whose send
    failed and viewers whose send succeeded). */
module Viewers {

  /** `list.remove(c)` when `c` is present; the list itself otherwise. */
  function RemoveFirst<C(==)>(s: seq<C>, c: C): (r: seq<C>)
    ensures c !in s ==> r == s
  {
    if s == [] then []
    else if s[0] == c then s[1..]
    else [s[0]] + RemoveFirst(s[1..], c)
  }

  /** A present viewer loses exactly one entry; nothing else changes count. */
  lemma {:induction false} RemoveFirstCounts<C>(s: seq<C>, c: C)
    requires c in s
    ensures |RemoveFirst(s, c)| == |s| - 1
    ensures multiset(RemoveFirst(s, c)) == multiset(s) - multiset{c}
  {
    assert s == [s[0]] + s[1..];
    if s[0] != c {
      RemoveFirstCounts(s[1..], c);
    }
  }

  /** It is the FIRST occurrence that goes: everything before it stays,
      everything after it stays, in order. */
  lemma {:induction false} RemoveFirstAt<C>(s: seq<C>, c: C, i: nat)
    requires i < |s| && s[i] == c
    requires forall k :: 0 <= k < i ==> s[k] != c
    ensures RemoveFirst(s, c) == s[..i] + s[i + 1..]
  {
    if i > 0 {
      var tail := s[1..];
      RemoveFirstAt(tail, c, i - 1);
      calc {
        RemoveFirst(s, c);
        [s[0]] + RemoveFirst(tail, c);
        [s[0]] + (tail[..i - 1] + tail[i..]);
        { assert [s[0]] + tail[..i - 1] == s[..i]; assert tail[i..] == s[i + 1..]; }
        s[..i] + s[i + 1..];
      }
    }
  }

  /** The clients whose send failed, in list order. */
  function Failed<C(==)>(s: seq<C>, failing: set<C>): (r: seq<C>)
    ensures |r| <= |s|
  {
    if s == [] then [] else (if s[0] in failing then [s[0]] else []) + Failed(s[1..], failing)
  }

  /** The clients whose send succeeded, in list order. */
  function Survivors<C(==)>(s: seq<C>, failing: set<C>): (r: seq<C>)
    ensures |r| <= |s|
  {
    if s == [] then [] else (if s[0] in failing then [] else [s[0]]) + Survivors(s[1..], failing)
  }

  /** A client survives exactly when it was connected and its send did not fail. */
  lemma {:induction false} SurvivorsMembers<C>(s: seq<C>, failing: set<C>, x: C)
    ensures x in Survivors(s, failing) <==> x in s && x !in failing
  {
    if s != [] {
      SurvivorsMembers(s[1..], failing, x);
      assert s == [s[0]] + s[1..];
    }
  }

  /** A client is dropped exactly when it was connected and its send failed. */
  lemma {:induction false} FailedMembers<C>(s: seq<C>, failing: set<C>, x: C)
    ensures x in Failed(s, failing) <==> x in s && x in failing
  {
    if s != [] {
      FailedMembers(s[1..], failing, x);
      assert s == [s[0]] + s[1..];
    }
  }

  /** A broadcast splits the list: every entry ends up in exactly one half. */
  lemma {:induction false} FailedAndSurvivorsPartition<C>(s: seq<C>, failing: set<C>)
    ensures multiset(Failed(s, failing)) + multiset(Survivors(s, failing)) == multiset(s)
  {
    if s != [] {
      FailedAndSurvivorsPartition(s[1..], failing);
      assert s == [s[0]] + s[1..];
      var f, v := if s[0] in failing then [s[0]] else [], if s[0] in failing then [] else [s[0]];
      assert Failed(s, failing) == f + Failed(s[1..], failing);
      assert Survivors(s, failing) == v + Survivors(s[1..], failing);
      assert multiset(f) + multiset(v) == multiset{s[0]};
    }
  }

  /** Failed clients are collected one send at a time. */
  lemma {:induction false} FailedSnoc<C>(s: seq<C>, x: C, failing: set<C>)
    ensures Failed(s + [x], failing) == Failed(s, failing) + (if x in failing then [x] else [])
  {
    if s == [] {
      assert [] + [x] == [x];
    } else {
      var head := if s[0] in failing then [s[0]] else [];
      assert (s + [x])[0] == s[0] && (s + [x])[1..] == s[1..] + [x];
      assert Failed(s + [x], failing) == head + Failed(s[1..] + [x], failing);
      FailedSnoc(s[1..], x, failing);
      assert Failed(s, failing) == head + Failed(s[1..], failing);
    }
  }

  /** Removing each of `gone`, in order, by `list.remove`. */
  function RemoveEach<C(==)>(s: seq<C>, gone: seq<C>): seq<C>
    decreases |gone|
  {
    if gone == [] then s else RemoveEach(RemoveFirst(s, gone[0]), gone[1..])
  }

  /** Removing the failed clients one by one leaves exactly the survivors,
      duplicates included: a failed client's k-th removal takes its k-th
      entry because every entry before it has already gone. */
  lemma {:induction false} RemoveFailedLeavesSurvivors<C>(kept: seq<C>, s: seq<C>, failing: set<C>)
    requires forall i :: 0 <= i < |kept| ==> kept[i] !in failing
    ensures RemoveEach(kept + s, Failed(s, failing)) == kept + Survivors(s, failing)
    decreases |s|
  {
    if s == [] {
      assert kept + [] == kept;
    } else {
      var kept' := Step(kept, s, failing);
      RemoveFailedLeavesSurvivors(kept', s[1..], failing);
    }
  }

  /** The prefix known to survive, after looking at the next client. */
  function NextKept<C(==)>(kept: seq<C>, s: seq<C>, failing: set<C>): seq<C>
    requires s != []
  {
    if s[0] in failing then kept else kept + [s[0]]
  }

  /** One step of the above: a failed client is removed at its first entry,
      which is its next one; a client whose send succeeded joins the prefix. */
  lemma Step<C>(kept: seq<C>, s: seq<C>, failing: set<C>) returns (kept': seq<C>)
    requires forall i :: 0 <= i < |kept| ==> kept[i] !in failing
    requires s != []
    ensures kept' == NextKept(kept, s, failing)
    ensures forall i :: 0 <= i < |kept'| ==> kept'[i] !in failing
    ensures RemoveEach(kept + s, Failed(s, failing)) == RemoveEach(kept' + s[1..], Failed(s[1..], failing))
    ensures kept + Survivors(s, failing) == kept' + Survivors(s[1..], failing)
  {
    kept' := NextKept(kept, s, failing);
    if s[0] in failing {
      RemoveFailedHead(kept, s, failing);
    } else {
      KeepSurvivorHead(kept, s, failing);
      assert (kept + [s[0]]) + Survivors(s[1..], failing) == kept + ([s[0]] + Survivors(s[1..], failing));
    }
  }

  lemma RemoveFailedHead<C>(kept: seq<C>, s: seq<C>, failing: set<C>)
    requires forall i :: 0 <= i < |kept| ==> kept[i] !in failing
    requires s != [] && s[0] in failing
    ensures RemoveEach(kept + s, Failed(s, failing)) == RemoveEach(kept + s[1..], Failed(s[1..], failing))
    ensures Survivors(s, failing) == Survivors(s[1..], failing)
  {
    var x, rest := s[0], s[1..];
    var gone := Failed(s, failing);
    assert gone == [x] + Failed(rest, failing);
    var whole := kept + s;
    assert forall k :: 0 <= k < |kept| ==> whole[k] != x;
    assert whole[..|kept|] == kept && whole[|kept|] == x && whole[|kept| + 1..] == rest;
    RemoveFirstAt(whole, x, |kept|);
    assert RemoveFirst(whole, x) == kept + rest;
  }

  lemma KeepSurvivorHead<C>(kept: seq<C>, s: seq<C>, failing: set<C>)
    requires forall i :: 0 <= i < |kept| ==> kept[i] !in failing
    requires s != [] && s[0] !in failing
    ensures forall i :: 0 <= i < |kept + [s[0]]| ==> (kept + [s[0]])[i] !in failing
    ensures RemoveEach(kept + s, Failed(s, failing)) == RemoveEach((kept + [s[0]]) + s[1..], Failed(s[1..], failing))
    ensures Survivors(s, failing) == [s[0]] + Survivors(s[1..], failing)
  {
    assert kept + s == (kept + [s[0]]) + s[1..];
    assert Failed(s, failing) == Failed(s[1..], failing);
  }
}
