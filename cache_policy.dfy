/**
 * The plugin's `useLocalCache` field: a one-way flag that selects between the
 * global and the project-local artifact patterns. It is recomputed from the
 * extension only while it is false, and collecting access transformers can
 * only set it. The flag's history is modelled as a sequence of events.
 */
module CachePolicy {

  datatype FlagEvent =
    /** a call of `useLocalCache(ext)`: does the extension list ATs, is `useDepAts` set */
    | Queried(hasExtensionAts: bool, useDepAts: bool)
    /** the end of `addAtsToDeobf`, with its `addedAts` */
    | AtsCollected(addedAts: bool)

  /** Would this event turn a false flag true? */
  predicate Pins(e: FlagEvent) {
    match e
    case Queried(hasAts, depAts) => hasAts || depAts
    case AtsCollected(added) => added
  }

  /** The flag after one event. */
  function NextFlag(flag: bool, e: FlagEvent): (r: bool)
    ensures flag ==> r
    ensures r <==> flag || Pins(e)
  {
    match e
    case Queried(hasAts, depAts) => if flag then true else hasAts || depAts
    case AtsCollected(added) => flag || added
  }

  /** The flag after a run of events, in order. */
  function FlagAfter(flag: bool, events: seq<FlagEvent>): bool
    decreases |events|
  {
    if events == [] then flag else FlagAfter(NextFlag(flag, events[0]), events[1..])
  }

  /** Once local, always local: no later event resets the flag. */
  lemma {:induction false} PinnedFlagStays(events: seq<FlagEvent>)
    ensures FlagAfter(true, events)
  {
    if events != [] {
      PinnedFlagStays(events[1..]);
    }
  }

  /** The flag ends true exactly when it started true or some event pinned it. */
  lemma {:induction false} FlagAfterExactly(flag: bool, events: seq<FlagEvent>)
    ensures FlagAfter(flag, events) <==> flag || exists i :: 0 <= i < |events| && Pins(events[i])
    decreases |events|
  {
    if events != [] {
      FlagAfterExactly(NextFlag(flag, events[0]), events[1..]);
      if exists i :: 0 <= i < |events| && Pins(events[i]) {
        var i :| 0 <= i < |events| && Pins(events[i]);
        if i > 0 {
          assert Pins(events[1..][i - 1]);
        }
      }
      forall i | 0 <= i < |events| - 1 && Pins(events[1..][i])
        ensures Pins(events[i + 1])
      {
      }
    }
  }

  /** Running two stretches of events one after the other. */
  lemma {:induction false} FlagAfterAppend(flag: bool, a: seq<FlagEvent>, b: seq<FlagEvent>)
    ensures FlagAfter(flag, a + b) == FlagAfter(FlagAfter(flag, a), b)
    decreases |a|
  {
    if a != [] {
      assert (a + b)[0] == a[0];
      assert (a + b)[1..] == a[1..] + b;
      FlagAfterAppend(NextFlag(flag, a[0]), a[1..], b);
    } else {
      assert a + b == b;
    }
  }
}
