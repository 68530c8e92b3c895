/** The three searches of the reference graph tell the same story. */
module RefAgreement {
  import opened RefGraph
  import RefSearch
  import ReverseRefs
  import ReachableSet

  /** The reachable numbers are the catalog's own and those of the objects with an inbound edge. */
  lemma ReachableAreReferenced(d: Document, out: map<RefKey, seq<RefSearch.Edge>>, numbers: set<nat>, n: nat)
    requires Rooted(d) && d.root.Some? && ReverseRefs.IndexIsExact(d, out)
    requires n in numbers <==> ReachableSet.IsReachable(d, n)
    ensures n in numbers <==> n == d.root.value.0 || exists gen: nat :: RefSearch.Inbound(out, (n, gen)) != []
  {
    hide Reachable, ReverseRefs.IndexIsExact, Rooted, RefSearch.Inbound;
    if gen: nat :| Reachable(d, (n, gen)) {
      ReverseRefs.ReferencedIffReachable(d, out, (n, gen));
    }
    if gen: nat :| RefSearch.Inbound(out, (n, gen)) != [] {
      ReverseRefs.ReferencedIffReachable(d, out, (n, gen));
    }
  }

  /** A path is found to exactly the objects with an inbound edge. */
  lemma FoundAreReferenced(d: Document, out: map<RefKey, seq<RefSearch.Edge>>, target: RefKey,
                           found: Option<seq<RefKey>>)
    requires Rooted(d) && d.root.Some? && ReverseRefs.IndexIsExact(d, out)
    requires found.Some? <==> Reachable(d, target)
    ensures found.Some? <==> RefSearch.Inbound(out, target) != []
  {
    ReverseRefs.ReferencedIffReachable(d, out, target);
  }
}
