/**
  Which UTF-16 units the host's case-insensitive comparison might equate with an ASCII unit.  The
  verdict for a unit is found by probing all of ASCII once and then kept.
 */
module FoldClassification {
  import opened Words

  datatype Comparison = Equal | Unequal | Failed

  const ASCII_UNITS := 0x80

  predicate IsAscii(u: Unit) { u < ASCII_UNITS }

  predicate IsSurrogateUnit(u: Unit) { 0xD800 <= u <= 0xDFFF }

  /** The host's table, as far as one unit against ASCII is concerned. */
  ghost predicate MatchesSomeAscii(host: (Unit, Unit) -> bool, u: Unit) {
    exists a: Unit :: IsAscii(a) && host(u, a)
  }

  /** Holds of every unit that could stand for an ASCII unit in a match; never of ASCII itself. */
  ghost predicate Covers(mayFold: Unit -> bool, host: (Unit, Unit) -> bool) {
    forall u: Unit :: !IsAscii(u) && (IsSurrogateUnit(u) || MatchesSomeAscii(host, u)) ==> mayFold(u)
  }

  /** The verdict every later call gives, once a unit has been classified. */
  predicate Verdict(cache: map<Unit, bool>, u: Unit) {
    !IsAscii(u) && (IsSurrogateUnit(u) || (u in cache && cache[u]))
  }

  predicate Classified(cache: map<Unit, bool>, u: Unit) {
    IsAscii(u) || IsSurrogateUnit(u) || u in cache
  }

  /** What has been cached errs only towards inclusion. */
  ghost predicate Inclusive(cache: map<Unit, bool>, host: (Unit, Unit) -> bool) {
    forall u :: u in cache && MatchesSomeAscii(host, u) ==> cache[u]
  }

  /** Verdicts are added and never revised. */
  ghost predicate Extends(before: map<Unit, bool>, after: map<Unit, bool>) {
    forall u :: u in before ==> u in after && after[u] == before[u]
  }

  // ---- one classification for all time ----

  ghost predicate IsHistory(caches: nat -> map<Unit, bool>, host: (Unit, Unit) -> bool) {
    forall n: nat :: Inclusive(caches(n), host) && Extends(caches(n), caches(n + 1))
  }

  /** Every verdict given from this cache is that of `mayFold`. */
  ghost predicate Settles(cache: map<Unit, bool>, mayFold: Unit -> bool) {
    forall u :: Classified(cache, u) ==> (Verdict(cache, u) <==> mayFold(u))
  }

  ghost predicate Admitted(caches: nat -> map<Unit, bool>, u: Unit) {
    exists n: nat :: u in caches(n) && caches(n)[u]
  }

  lemma {:induction false} HistoryExtends(caches: nat -> map<Unit, bool>, host: (Unit, Unit) -> bool, i: nat, j: nat)
    requires IsHistory(caches, host) && i <= j
    ensures Extends(caches(i), caches(j))
    decreases j - i
  {
    if i < j {
      HistoryExtends(caches, host, i, j - 1);
      assert Extends(caches(j - 1), caches(j - 1 + 1));
    }
  }

  lemma OnceAdmitted(caches: nat -> map<Unit, bool>, host: (Unit, Unit) -> bool, n: nat, m: nat, u: Unit)
    requires IsHistory(caches, host) && u in caches(n) && u in caches(m)
    ensures caches(n)[u] == caches(m)[u]
  {
    if n <= m {
      HistoryExtends(caches, host, n, m);
    } else {
      HistoryExtends(caches, host, m, n);
    }
  }

  /** However a classifier's cache grows, and whenever the host fails, all its verdicts are those of
      one predicate, and that one leaves out no unit the host equates with ASCII. */
  lemma VerdictsCover(caches: nat -> map<Unit, bool>, host: (Unit, Unit) -> bool) returns (mayFold: Unit -> bool)
    requires IsHistory(caches, host)
    ensures Covers(mayFold, host) && forall n: nat :: Settles(caches(n), mayFold)
  {
    mayFold := (u: Unit) => !IsAscii(u) && (IsSurrogateUnit(u) || MatchesSomeAscii(host, u) || Admitted(caches, u));
    forall n: nat ensures Settles(caches(n), mayFold) {
      forall u | Classified(caches(n), u) ensures Verdict(caches(n), u) <==> mayFold(u) {
        if u in caches(n) && Admitted(caches, u) {
          var m: nat :| u in caches(m) && caches(m)[u];
          OnceAdmitted(caches, host, n, m, u);
        }
        assert Inclusive(caches(n), host);
      }
    }
  }

  /** So the side-set decision is that of the predicate, whenever it is taken. */
  lemma SideSetAsSettled(name: seq<Unit>, cache: map<Unit, bool>, mayFold: Unit -> bool)
    requires Settles(cache, mayFold)
    requires (exists k :: 0 <= k < |name| && Verdict(cache, name[k])) || forall k :: 0 <= k < |name| ==> Classified(cache, name[k])
    ensures NeedsSideSet(name, mayFold) <==> exists k :: 0 <= k < |name| && Verdict(cache, name[k])
  {
    if k :| 0 <= k < |name| && Verdict(cache, name[k]) {
      assert Classified(cache, name[k]);
    } else {
      assert forall k :: 0 <= k < |name| ==> Classified(cache, name[k]) && !mayFold(name[k]);
    }
  }

  class Classifier {
    const host: (Unit, Unit) -> bool
    var cache: map<Unit, bool>

    ghost predicate Valid()
      reads this
    {
      Inclusive(cache, host)
    }

    constructor (host: (Unit, Unit) -> bool)
      ensures Valid() && cache == map[] && this.host == host
    {
      this.host := host;
      cache := map[];
    }

    /** One comparison by the host; `fails` is the host's doing. */
    function Compare(u: Unit, a: Unit, fails: bool): Comparison {
      if fails then Failed else if host(u, a) then Equal else Unequal
    }

    /** `failures` are the ASCII units at which the host's comparison fails this time. */
    method UnitMayFoldToAscii(u: Unit, failures: set<Unit>) returns (may: bool)
      requires Valid()
      modifies this
      ensures Valid() && Extends(old(cache), cache)
      ensures Classified(cache, u) && (may <==> Verdict(cache, u))
      ensures (u < 0x80 ==> !may) && (0xD800 <= u <= 0xDFFF ==> may)
      ensures !IsAscii(u) && MatchesSomeAscii(host, u) ==> may
      ensures !IsAscii(u) && !IsSurrogateUnit(u) && failures == {} && u !in old(cache) && may ==>
                MatchesSomeAscii(host, u)
    {
      if IsAscii(u) {
        return false;
      }
      if IsSurrogateUnit(u) {
        return true;
      }
      if u in cache {
        return cache[u];
      }
      may := Probe(u, failures);
      cache := cache[u := may];
    }

    method Probe(u: Unit, failures: set<Unit>) returns (exceptional: bool)
      ensures MatchesSomeAscii(host, u) ==> exceptional
      ensures exceptional && failures == {} ==> MatchesSomeAscii(host, u)
    {
      for ascii := 0 to ASCII_UNITS
        invariant forall a: Unit :: a < ascii ==> !host(u, a)
      {
        var result := Compare(u, ascii, ascii in failures);
        if result != Unequal {
          return true;
        }
      }
      exceptional := false;
    }
  }

  predicate NeedsSideSet(name: seq<Unit>, mayFold: Unit -> bool) {
    exists k :: 0 <= k < |name| && mayFold(name[k])
  }

  method NameRequiresCandidateSideSet(name: seq<Unit>, classifier: Classifier,
                                      failures: set<Unit>) returns (needs: bool)
    requires classifier.Valid()
    modifies classifier
    ensures classifier.Valid() && Extends(old(classifier.cache), classifier.cache)
    ensures needs <==> exists k :: 0 <= k < |name| && Verdict(classifier.cache, name[k])
    ensures !needs ==> forall k :: 0 <= k < |name| ==> Classified(classifier.cache, name[k])
    ensures !needs ==> forall k :: 0 <= k < |name| && !IsAscii(name[k]) ==> !MatchesSomeAscii(classifier.host, name[k])
  {
    ghost var before := classifier.cache;
    for k := 0 to |name|
      invariant classifier.Valid() && Extends(before, classifier.cache)
      invariant forall j :: 0 <= j < k ==> Classified(classifier.cache, name[j]) && !Verdict(classifier.cache, name[j])
    {
      var may := classifier.UnitMayFoldToAscii(name[k], failures);
      if may {
        assert Verdict(classifier.cache, name[k]);
        return true;
      }
    }
    needs := false;
  }
}
