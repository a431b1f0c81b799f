/**
 * The main chain together with the orphan lists: `add_block_nolock` as far as both are
 * concerned (client/block.c:622-880). BI_REF is set by the lists and read by `check_new_main`;
 * it is never cleared, so a main block still carries it when it is rolled back.
 */
module Client {
  import opened Ledger
  import opened Conservation
  import opened Chain
  import opened Node
  import opened Orphans

  class Pool {
    const chain: MainChain
    const orphans: Orphanage

    ghost predicate Valid()
      reads this, chain, orphans, orphans.plain, orphans.extras
    {
      chain.Valid() && Listed()
    }

    /**
     * Lists, flags and counters agree, every main block carries BI_REF, and a block without BI_REF
     * has no `ref`: the two uses of the field `ref`/`oref` never meet.
     */
    ghost predicate Listed()
      reads this, chain, orphans, orphans.plain, orphans.extras
    {
      orphans.Valid(chain.dag) && chain.Held(orphans.flags) && NoRef(orphans.flags, chain.acc)
    }

    constructor (testnet: bool, syncForkHeight: nat)
      ensures Valid() && fresh(chain) && fresh(orphans) && fresh(orphans.plain) && fresh(orphans.extras)
      ensures chain.testnet == testnet && chain.syncForkHeight == syncForkHeight && chain.dag == []
    {
      hide MainChain.Shape, MainChain.Heaviest, MainChain.Agrees, Orphanage.Tables;
      chain := new MainChain(testnet, syncForkHeight);
      orphans := new Orphanage();
    }

    /**
     * Adding a block keeps the lists and the flags in step, and whatever it promotes or rolls
     * back, `ref` is written only in blocks that carried BI_REF already, never over an orphan's `oref`.
     */
    method AddBlock(nb: Block, now: nat, extra: bool, admissible: bool) returns (outcome: Outcome)
      requires Valid() && nb.work > 0
      modifies chain, orphans, orphans.plain, orphans.extras
      ensures Listed() && (!outcome.Added? ==> Valid())
      ensures outcome.Added? ==>
                && |chain.rank| == |chain.dag| && Linked(chain.rank) && -1 <= old(chain.top) < |chain.rank| && |old(chain.dag)| < |chain.dag|
                && var n := old(chain.nmain) + if old(chain.Due(now, orphans.flags)) then 1 else 0;
                   && chain.Shape() && chain.nmain <= |chain.Marked()| && chain.Books(Oldest(chain.Marked(), chain.nmain))
                   && (Valid() <==> (chain.top == old(chain.top)
                                     || SwitchMarks(chain.dag, chain.rank, old(chain.top), |old(chain.dag)|, n, chain.syncForkHeight)))
      ensures chain.dag == if outcome.Added? then old(chain.dag) + [nb] else old(chain.dag)
      ensures chain.honest == (&& old(chain.honest) && (LinksOk(old(chain.dag), nb) ==> old(chain.Due(now, orphans.flags) ==> chain.FeeFreeNext()))
                               && (outcome.Added? ==> Distinct(nb.links)))
      ensures outcome.Added? ==> orphans.flags[|old(chain.dag)|] == Flags(false, extra)
      ensures |chain.acc| == |chain.dag| >= |old(orphans.flags)|
      ensures WritesReferenced(old(orphans.flags), old(chain.acc), chain.acc[..|old(orphans.flags)|])
    {
      hide MainChain.Shape, MainChain.Heaviest, MainChain.Agrees, WritesReferenced, Closed, Orphanage.Tables, Freed;
      hide SwitchMarks, Linked, MainChain.Due, MainChain.FeeFreeNext, MainChain.Books, IsDag, LinksOk, NoRef;
      ghost var g, flags := chain.dag, orphans.flags;
      var dag := chain.dag;
      outcome := chain.AddBlock(nb, now, orphans.flags, admissible);
      if outcome.Added? {
        ghost var saved := orphans.saved;
        LinksOkDag(dag, nb);
        orphans.AddBlock(dag, nb, extra);
        ClosedSize(chain.dag, orphans.flags);
        FreedKeeps(g, flags, orphans.flags[..|g|], Targets(nb.links), saved, orphans.saved);
        forall x | 0 <= x < |chain.isMain| && chain.isMain[x] ensures orphans.flags[x].ref {
          assert (flags + [Flags(false, true)])[x].ref;
          assert orphans.flags[x] == orphans.flags[..|g|][x];
        }
        NoRefKept(flags, old(chain.acc), orphans.flags, chain.acc);
      } else {
        assert chain.acc[..|flags|] == chain.acc;
        NoRefSame(flags, old(chain.acc), chain.acc);
      }
    }
  }
}
