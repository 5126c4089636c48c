// Explicitly wanted addresses and the pool's exclusions. The branch for a wanted
// address checks the network only, so it can lease what a search never offers.
module PreferredAddress {
  import opened MachineWords
  import opened Text
  import opened IPv4
  import opened PoolWindows
  import opened Claims
  import opened ClaimAllocator

  /** The wanted address passes the checks the source makes before it asks the API. */
  predicate Accepted(a: Allocator, ipv6: Ipv6Parser)
    requires a.Valid()
  {
    a.Wanted() != "" && ValidateIPv4Address(a.Wanted(), ipv6) == None && ContainsIPv4(a.window.network, a.Wanted(), ipv6)
  }

  /** The replies end a call with a lease of an excluded address. */
  predicate LeasesExcluded(a: Allocator, start: Pc, replies: seq<Reply>)
    requires a.Valid()
  {
    var pc := Follow(a, start, replies);
    pc.Done? && pc.outcome.Leased? && pc.outcome.address in a.window.exclude
  }

  /** The same, and the last reply was to a create: a new claim, not one already held. */
  predicate CreatesExcluded(a: Allocator, start: Pc, replies: seq<Reply>)
    requires a.Valid()
  {
    && LeasesExcluded(a, start, replies)
    && replies != [] && !Follow(a, start, replies[..|replies| - 1]).Done?
    && replies[|replies| - 1].Created?
  }

  /** What the call works on, and what it leased, is not excluded. */
  predicate Clean(a: Allocator, pc: Pc) {
    match pc
    case TryFree(_, free, _) => free !in a.window.exclude
    case RecheckFree(_, free, _) => free !in a.window.exclude
    case Done(outcome) => outcome.Leased? ==> outcome.address !in a.window.exclude
    case _ => a.Wanted() !in a.window.exclude
  }

  lemma NextIsClean(a: Allocator, pc: Pc, reply: Reply)
    requires a.Valid() && !pc.Done? && Clean(a, pc)
    ensures Clean(a, Next(a, pc, reply))
  {
    hide FirstFreeOf, IsClaimedBy, TrimSpace, Canonical, AddressObjectName;
    if pc.RecheckFree? {
      FoundIsCanonical(a.window, pc.used);
    }
  }

  lemma {:induction false} FollowIsClean(a: Allocator, start: Pc, replies: seq<Reply>)
    requires a.Valid() && Clean(a, start)
    ensures Clean(a, Follow(a, start, replies))
    decreases |replies|
  {
    hide Next, Clean;
    if replies != [] {
      var front := replies[..|replies| - 1];
      FollowIsClean(a, start, front);
      if !Follow(a, start, front).Done? {
        NextIsClean(a, Follow(a, start, front), replies[|replies| - 1]);
      }
    }
  }

  lemma StartIsClean(a: Allocator, snapshot: set<string>, ipv6: Ipv6Parser)
    requires a.Valid()
    ensures !Accepted(a, ipv6) || a.Wanted() !in a.window.exclude ==> Clean(a, Start(a, snapshot, ipv6))
  {
    hide FirstFreeOf, ValidateIPv4Address, ContainsIPv4;
    FoundIsCanonical(a.window, snapshot);
  }

  /** Asking for an address already held as one's own leases it again. */
  lemma OwnClaimIsKept(a: Allocator, snapshot: set<string>, ipv6: Ipv6Parser)
    requires a.Valid() && Accepted(a, ipv6)
    ensures Follow(a, Start(a, snapshot, ipv6), [Hit(a.NewClaim(a.Wanted()))]) == Done(Leased(a.Wanted(), a.window.network.ones))
  {
    hide FirstFreeOf, ValidateIPv4Address, ContainsIPv4;
    var claim := a.NewClaim(a.Wanted());
    assert [Hit(claim)][..0] == [];
    assert Follow(a, Start(a, snapshot, ipv6), []) == AskPreferred(snapshot);
  }

  /** A wanted address nobody holds is created: the exclusions are not looked at. */
  lemma WantedIsCreated(a: Allocator, snapshot: set<string>, ipv6: Ipv6Parser)
    requires a.Valid() && Accepted(a, ipv6) && a.Wanted() !in snapshot
    ensures var start := Start(a, snapshot, ipv6);
            && Follow(a, start, [NotFound]) == TakePreferred(snapshot)
            && Follow(a, start, [NotFound, Created]) == Done(Leased(a.Wanted(), a.window.network.ones))
  {
    hide FirstFreeOf, ValidateIPv4Address, ContainsIPv4;
    assert [NotFound][..0] == [] && [NotFound, Created][..1] == [NotFound];
    assert Follow(a, Start(a, snapshot, ipv6), []) == AskPreferred(snapshot);
  }

  /** Every address of the network is accepted, whatever the window says about it. */
  lemma HostIsAccepted(a: Allocator, n: U32, ipv6: Ipv6Parser)
    requires a.Valid() && a.window.network.Contains(n) && a.preferred == Render(n)
    ensures a.Wanted() == Render(n) && Accepted(a, ipv6)
  {
    RenderShape(n);
    TrimOfTrimmed(Render(n), GoSpace);
    RenderIsParsed(n, ipv6);
    assert TrimSpace(a.Wanted()) == Render(n);
    ValidateExactlyCanonical(a.Wanted(), ipv6);
    hide Render, TrimSpace, ParseIp, ValidateIPv4Address;
  }

  /** In particular the pool's gateway can be leased, always excluded as it is. */
  lemma GatewayIsLeased(a: Allocator, n: U32, snapshot: set<string>, ipv6: Ipv6Parser)
    requires a.Valid() && a.window.network.Contains(n) && a.window.gateway == Render(n) && a.preferred == Render(n)
    requires Render(n) !in snapshot
    ensures CreatesExcluded(a, Start(a, snapshot, ipv6), [NotFound, Created])
  {
    HostIsAccepted(a, n, ipv6);
    RenderShape(n);
    WantedIsCreated(a, snapshot, ipv6);
    assert [NotFound, Created][..1] == [NotFound];
    hide Follow, Start, Accepted, Render;
  }

  /**
   * No sequence of replies leases an excluded address exactly when the wanted address
   * is blank, rejected, outside the network, or not excluded.
   */
  lemma NeverLeasesExcludedExactly(a: Allocator, snapshot: set<string>, ipv6: Ipv6Parser)
    requires a.Valid()
    ensures (forall replies :: !LeasesExcluded(a, Start(a, snapshot, ipv6), replies))
       <==> !Accepted(a, ipv6) || a.Wanted() !in a.window.exclude
  {
    var start := Start(a, snapshot, ipv6);
    StartIsClean(a, snapshot, ipv6);
    if !Accepted(a, ipv6) || a.Wanted() !in a.window.exclude {
      forall replies ensures !LeasesExcluded(a, start, replies) {
        FollowIsClean(a, start, replies);
      }
    } else {
      OwnClaimIsKept(a, snapshot, ipv6);
      assert LeasesExcluded(a, start, [Hit(a.NewClaim(a.Wanted()))]) by { hide Start, Accepted; }
    }
  }

  /**
   * And none creates a claim on one exactly when, besides, the address may be in the
   * snapshot already: then the only lease left is of a claim already the caller's own.
   */
  lemma NeverCreatesExcludedExactly(a: Allocator, snapshot: set<string>, ipv6: Ipv6Parser)
    requires a.Valid()
    ensures (forall replies :: !CreatesExcluded(a, Start(a, snapshot, ipv6), replies))
       <==> !Accepted(a, ipv6) || a.Wanted() !in a.window.exclude || a.Wanted() in snapshot
  {
    var start := Start(a, snapshot, ipv6);
    if !Accepted(a, ipv6) || a.Wanted() !in a.window.exclude {
      NeverLeasesExcludedExactly(a, snapshot, ipv6);
    } else if a.Wanted() in snapshot {
      forall replies ensures !CreatesExcluded(a, start, replies) {
        if replies != [] {
          OnlyAsks(a, snapshot, ipv6, replies[..|replies| - 1]);
        }
        hide Start, Accepted;
      }
    } else {
      WantedIsCreated(a, snapshot, ipv6);
      assert [NotFound, Created][..1] == [NotFound];
      assert CreatesExcluded(a, start, [NotFound, Created]) by { hide Start, Accepted; }
    }
  }

  /** An address in the snapshot is asked for and never created. */
  lemma {:induction false} OnlyAsks(a: Allocator, snapshot: set<string>, ipv6: Ipv6Parser, replies: seq<Reply>)
    requires a.Valid() && Accepted(a, ipv6) && a.Wanted() in snapshot
    ensures var pc := Follow(a, Start(a, snapshot, ipv6), replies); pc.Done? || pc == AskPreferred(snapshot)
    decreases |replies|
  {
    hide FirstFreeOf, ValidateIPv4Address, ContainsIPv4;
    if replies != [] {
      OnlyAsks(a, snapshot, ipv6, replies[..|replies| - 1]);
      hide Start;
    }
  }
}
