/** Properties of the reflection journal over whole sessions of user actions. */
module JournalProperties {
  import opened JsText
  import opened Journal

  /** A fresh browser, with nothing stored, shows the empty list. */
  lemma MountEmptyStorage()
    ensures Mount(map[]).entries == []
    ensures !SaveEnabled(Mount(map[]))
  {
  }

  /** Saving and then reopening the journal shows exactly the list that was
      on screen when the save finished. */
  lemma SaveThenReload(s: State, now: int, stamp: string)
    ensures Mount(HandleSave(s, now, stamp).storage).entries == HandleSave(s, now, stamp).entries
  {
  }

  /** A session never removes, alters or reorders a reflection: the list it
      starts with is a prefix of the list it ends with. */
  lemma {:induction false} RunKeepsPrefix(s: State, evs: seq<Event>)
    ensures |s.entries| <= |Run(s, evs).entries|
    ensures Run(s, evs).entries[..|s.entries|] == s.entries
    decreases |evs|
  {
    if evs != [] {
      var s1 := Step(s, evs[0]);
      assert |s.entries| <= |s1.entries| && s1.entries[..|s.entries|] == s.entries;
      RunKeepsPrefix(s1, evs[1..]);
      var r := Run(s, evs);
      assert r == Run(s1, evs[1..]);
      assert r.entries[..|s.entries|] == r.entries[..|s1.entries|][..|s.entries|];
    }
  }

  /** Every reflection a session adds went through the enabled button: it has
      some text and an emotion other than the neutral one. */
  lemma {:induction false} RunAddsOnlyGuarded(s: State, evs: seq<Event>)
    ensures |s.entries| <= |Run(s, evs).entries|
    ensures forall i :: |s.entries| <= i < |Run(s, evs).entries| ==>
              Truthy(Run(s, evs).entries[i].text) && Run(s, evs).entries[i].emotion != NeutralEmotion
    decreases |evs|
  {
    if evs != [] {
      var s1 := Step(s, evs[0]);
      RunAddsOnlyGuarded(s1, evs[1..]);
      RunKeepsPrefix(s1, evs[1..]);
      var r := Run(s, evs);
      assert r == Run(s1, evs[1..]);
      forall i | |s.entries| <= i < |r.entries|
        ensures Truthy(r.entries[i].text) && r.entries[i].emotion != NeutralEmotion
      {
        if i < |s1.entries| {
          assert i == |s.entries|;
          assert r.entries[i] == r.entries[..|s1.entries|][i] == s1.entries[i];
        }
      }
    }
  }

  /** Once the screen and storage agree, they keep agreeing through any
      session: every save writes the full list back. */
  lemma {:induction false} RunKeepsSynced(s: State, evs: seq<Event>)
    requires Synced(s)
    ensures Synced(Run(s, evs))
    decreases |evs|
  {
    if evs != [] {
      RunKeepsSynced(Step(s, evs[0]), evs[1..]);
    }
  }

  /** Mounting over storage that holds a list starts out in agreement. */
  lemma MountSynced(storage: Storage)
    requires StorageKey in storage
    ensures Synced(Mount(storage))
  {
  }

  /** A session whose clock readings strictly increase, starting after every
      id already in the list, keeps the ids strictly increasing. */
  lemma {:induction false} RunIdsIncreasing(s: State, evs: seq<Event>, after: int)
    requires IdsIncreasing(s.entries)
    requires forall i :: 0 <= i < |s.entries| ==> s.entries[i].id <= after
    requires ClockIncreasing(evs, after)
    ensures IdsIncreasing(Run(s, evs).entries)
    decreases |evs|
  {
    if evs != [] {
      var s1 := Step(s, evs[0]);
      match evs[0]
      case Clicked(now, stamp) =>
        assert forall i :: 0 <= i < |s1.entries| ==> s1.entries[i].id <= now by {
          if SaveEnabled(s) {
            forall i | 0 <= i < |s1.entries|
              ensures s1.entries[i].id <= now
            {
              if i < |s.entries| {
                assert s1.entries[i] == s1.entries[..|s.entries|][i] == s.entries[i];
              }
            }
          }
        }
        assert IdsIncreasing(s1.entries) by {
          if SaveEnabled(s) {
            forall i, j | 0 <= i < j < |s1.entries|
              ensures s1.entries[i].id < s1.entries[j].id
            {
              assert s1.entries[i] == s1.entries[..|s.entries|][i] == s.entries[i];
              if j < |s.entries| {
                assert s1.entries[j] == s1.entries[..|s.entries|][j] == s.entries[j];
              }
            }
          }
        }
        RunIdsIncreasing(s1, evs[1..], now);
      case Typed(_) =>
        RunIdsIncreasing(s1, evs[1..], after);
      case Picked(_) =>
        RunIdsIncreasing(s1, evs[1..], after);
    }
  }

  /** Strictly increasing ids are pairwise distinct. */
  lemma IncreasingIdsDistinct(es: seq<Reflection>)
    requires IdsIncreasing(es)
    ensures IdsDistinct(es)
  {
  }

  /** Ids are unique only under a strictly increasing clock: starting from a
      fresh browser, a session whose clicks read ever later clocks never
      produces two reflections with the same id. */
  lemma FreshSessionIdsDistinct(evs: seq<Event>, after: int)
    requires ClockIncreasing(evs, after)
    ensures IdsDistinct(Run(Mount(map[]), evs).entries)
  {
    RunIdsIncreasing(Mount(map[]), evs, after);
    IncreasingIdsDistinct(Run(Mount(map[]), evs).entries);
  }

  /** Without that assumption ids can collide: two saves that read the same
      millisecond give two reflections with one id. */
  lemma SameMillisecondCollides()
    ensures var evs := [Typed("calm entry"), Picked("happy"), Clicked(5, "t"),
                        Typed("second"), Picked("sad"), Clicked(5, "t")];
            var es := Run(Mount(map[]), evs).entries;
            |es| == 2 && es[0].id == es[1].id && !IdsDistinct(es)
  {
  }
}
