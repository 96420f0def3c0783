/**
 * The admin invite list: a search box and a status filter narrow the
 * fetched invites, each row carries a status badge (Used, Expired after a
 * week unused, otherwise Pending), and the filter buttons show counts.
 * The current time is a parameter; fetching, clipboard and toasts are not
 * part of this model.
 */
module InviteManagementView {
  import opened Common

  /** An invite as the list receives it; `createdAt` is its creation instant. */
  datatype InviteRow = InviteRow(id: string, email: string, token: string, contractPercent: int,
                                 role: string, used: bool, createdAt: Time)

  datatype StatusFilter = All | Pending | Used

  // ---------------------------------------------------------------------------
  // The filter effect
  // ---------------------------------------------------------------------------

  /** The e-mail or the role contains the query, both compared in lower case. */
  predicate MatchesQuery(invite: InviteRow, query: string)
  {
    Contains(Lower(invite.email), Lower(query)) || Contains(Lower(invite.role), Lower(query))
  }

  function Searched(query: string): InviteRow -> bool
  {
    (invite: InviteRow) => MatchesQuery(invite, query)
  }

  /** What a status other than All keeps: "used" the used invites, "pending" the others. */
  function OfStatus(status: StatusFilter): InviteRow -> bool
  {
    (invite: InviteRow) => if status == Used then invite.used else !invite.used
  }

  predicate KeptByStatus(invite: InviteRow, status: StatusFilter)
  {
    status == All || OfStatus(status)(invite)
  }

  /**
   * The effect that recomputes `filteredInvites`: the search filter when the
   * query is non-empty, then the status filter unless it is All. The result
   * keeps exactly the invites that pass both, in their original order.
   */
  method FilterInvites(invites: seq<InviteRow>, query: string, status: StatusFilter)
    returns (filtered: seq<InviteRow>)
    ensures forall x :: x in filtered <==>
      x in invites && (query != "" ==> MatchesQuery(x, query)) && KeptByStatus(x, status)
    ensures Subsequence(filtered, invites)
    ensures query == "" && status == All ==> filtered == invites
  {
    filtered := invites;
    SubsequenceReflexive(invites);
    if query != "" {
      FilterIsSubsequence(filtered, Searched(query));
      FilterMembership(filtered, Searched(query));
      filtered := Filter(filtered, Searched(query));
    }
    assert forall x :: x in filtered <==> x in invites && (query != "" ==> MatchesQuery(x, query));
    if status != All {
      ghost var before := filtered;
      FilterIsSubsequence(filtered, OfStatus(status));
      FilterMembership(filtered, OfStatus(status));
      filtered := Filter(filtered, OfStatus(status));
      SubsequenceTransitive(filtered, before, invites);
    }
  }

  /** Case is irrelevant to the search: an upper-cased query matches the same invites. */
  lemma SearchIgnoresCase(invite: InviteRow, query: string)
    ensures MatchesQuery(invite, Upper(query)) == MatchesQuery(invite, query)
  {
    LowerOfUpper(query);
  }

  // ---------------------------------------------------------------------------
  // Counts on the filter buttons
  // ---------------------------------------------------------------------------

  /** The used filter keeps nothing exactly when no invite is used. */
  lemma UsedCountZeroIffNoneUsed(invites: seq<InviteRow>)
    ensures |Filter(invites, OfStatus(Used))| == 0 <==> forall i :: 0 <= i < |invites| ==> !invites[i].used
  {
    if !forall i :: 0 <= i < |invites| ==> !invites[i].used {
      var i :| 0 <= i < |invites| && invites[i].used;
      assert OfStatus(Used)(invites[i]);
    }
  }

  datatype Counts = Counts(all: nat, pending: nat, used: nat)

  /** "All (n)", "Pending (n)", "Used (n)": every invite is either pending or used. */
  function ButtonCounts(invites: seq<InviteRow>): (c: Counts)
    ensures c.all == |invites|
    ensures c.pending == |Filter(invites, OfStatus(Pending))| && c.used == |Filter(invites, OfStatus(Used))|
    ensures c.pending + c.used == c.all
    ensures c.used == 0 <==> forall i :: 0 <= i < |invites| ==> !invites[i].used
  {
    FilterComplement(invites, OfStatus(Pending), OfStatus(Used));
    UsedCountZeroIffNoneUsed(invites);
    Counts(|invites|, |Filter(invites, OfStatus(Pending))|, |Filter(invites, OfStatus(Used))|)
  }

  // ---------------------------------------------------------------------------
  // getStatusBadge
  // ---------------------------------------------------------------------------

  datatype Badge = UsedBadge | ExpiredBadge | PendingBadge

  /** Whole days since creation: `Math.floor((now - createdAt) / (1000 * 3600 * 24))`. */
  function DaysSince(createdAt: Time, now: Time): int
  {
    (now - createdAt) / DAY_MS
  }

  /**
   * A used invite is Used whatever its age; an unused one is Expired when
   * more than 7 whole days old, that is at least 8 days after creation, and
   * Pending otherwise.
   */
  function StatusBadge(invite: InviteRow, now: Time): (b: Badge)
    ensures b == UsedBadge <==> invite.used
    ensures b == ExpiredBadge <==> !invite.used && now - invite.createdAt >= 8 * DAY_MS
    ensures b == PendingBadge <==> !invite.used && now - invite.createdAt < 8 * DAY_MS
  {
    if invite.used then UsedBadge
    else if DaysSince(invite.createdAt, now) > 7 then ExpiredBadge
    else PendingBadge
  }

  /** The "pending" filter keeps an unused invite even when its badge says Expired. */
  lemma ExpiredStillPending(invites: seq<InviteRow>, invite: InviteRow, now: Time)
    requires invite in invites && StatusBadge(invite, now) == ExpiredBadge
    ensures invite in Filter(invites, OfStatus(Pending))
  {
    var i :| 0 <= i < |invites| && invites[i] == invite;
  }

  /** A badge only ages: an invite Expired at one instant is Expired at every later one. */
  lemma ExpiryIsPermanent(invite: InviteRow, now: Time, later: Time)
    requires now <= later && StatusBadge(invite, now) == ExpiredBadge
    ensures StatusBadge(invite, later) == ExpiredBadge
  {
  }
}
