/** Helpers shared by the modules. */
module Collections {

  datatype Option<T> = None | Some(value: T)

  /** No element twice. */
  ghost predicate Distinct<T>(s: seq<T>) {
    forall i, j | 0 <= i < j < |s| :: s[i] != s[j]
  }

  /** Places in a sequence, each behind the one before. */
  ghost predicate Increasing(places: seq<nat>) {
    forall i, j | 0 <= i < j < |places| :: places[i] < places[j]
  }

  /** The places below `n` that are kept, in order. */
  ghost predicate Picks(places: seq<nat>, n: nat, keep: nat -> bool) {
    && Increasing(places)
    && (forall i | 0 <= i < |places| :: places[i] < n && keep(places[i]))
    && (forall a: nat | a < n && keep(a) :: a in places)
  }

  lemma PicksNext(places: seq<nat>, n: nat, keep: nat -> bool)
    requires Picks(places, n, keep)
    ensures Picks(if keep(n) then places + [n] else places, n + 1, keep)
  {
    if keep(n) {
      var all := places + [n];
      forall a: nat | a < n + 1 && keep(a) ensures a in all {
        assert a == n ==> all[|places|] == a;
      }
    }
  }
}
