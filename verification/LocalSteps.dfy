/** What the daemon does to its own table, as a step of the network. */
module LocalSteps {
  import opened NodeTable
  import opened GraphSync
  import opened Matching
  import opened Provenance

  /** Matching is a local step. */
  lemma MatchingIsLocal(h: set<Export>, t: Table)
    requires TableOk(h, t) && WfTable(t)
    ensures LocalStep(t, Process(t))
  {
    forall i | 0 <= i < |t|
      ensures Wf(Process(t)[i]) && NamesSized(Process(t)[i]) && SameButMatches(t[i], Process(t)[i])
    {
      assert EntryOk(h, t[i]);
      ProcessCore(t, i);
      assert Core(t[i]) == Core(Process(t)[i]);
    }
  }
}
