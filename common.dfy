/**
 * Vocabulary shared by the backend controllers and the frontend helpers of the
 * shift-bidding application: optional values, identifiers and timestamps, the
 * two enums of the schema (role, shift type), the error taxonomy with its HTTP
 * status codes, request-field shapes, and the string operations the code uses
 * (`startsWith`, `includes`, ASCII case mapping, the ad-hoc e-mail pattern).
 */
module Common {

  datatype Option<T> = None | Some(value: T)

  /** Row identifiers (the store generates them). */
  type Id = nat

  /**
   * `contractPercent || 100`, the fallback both the registration and the
   * calendar card apply: an absent percent and a percent of 0 are both
   * falsy and count as full time.
   */
  function PercentOrFull(contractPercent: Option<int>): (p: int)
    ensures contractPercent.None? || contractPercent == Some(0) ==> p == 100
    ensures contractPercent.Some? && contractPercent.value != 0 ==> p == contractPercent.value
  {
    if contractPercent.None? || contractPercent.value == 0 then 100 else contractPercent.value
  }

  /** Instants, as milliseconds since the epoch. */
  type Time = int

  const DAY_MS: int := 86400000

  // ---------------------------------------------------------------------------
  // Enums of the schema
  // ---------------------------------------------------------------------------

  datatype Role = USER | ADMIN

  function RoleName(r: Role): string
  {
    match r
    case USER => "USER"
    case ADMIN => "ADMIN"
  }

  /** `['USER', 'ADMIN'].includes(s)`, returning the enum value. */
  function ParseRole(s: string): (r: Option<Role>)
    ensures r.Some? ==> RoleName(r.value) == s
  {
    if s == "USER" then Some(USER) else if s == "ADMIN" then Some(ADMIN) else None
  }

  lemma RoleRoundTrip(r: Role)
    ensures ParseRole(RoleName(r)) == Some(r)
  {
  }

  datatype ShiftType = EARLY | LATE

  function ShiftTypeName(t: ShiftType): string
  {
    match t
    case EARLY => "EARLY"
    case LATE => "LATE"
  }

  /** `['EARLY', 'LATE'].includes(s)`, returning the enum value. */
  function ParseShiftType(s: string): (r: Option<ShiftType>)
    ensures r.Some? ==> ShiftTypeName(r.value) == s
  {
    if s == "EARLY" then Some(EARLY) else if s == "LATE" then Some(LATE) else None
  }

  lemma ShiftTypeRoundTrip(t: ShiftType)
    ensures ParseShiftType(ShiftTypeName(t)) == Some(t)
  {
  }

  // ---------------------------------------------------------------------------
  // Errors and replies
  // ---------------------------------------------------------------------------

  /** Every error response of the backend, one constructor per distinct message. */
  datatype Reason =
    | MissingFields            // "... are required."
    | InvalidEmail
    | PasswordTooShort
    | PercentOutOfRange
    | InvalidRole
    | InvalidShiftType
    | InvalidDate
    | EmptyBatch
    | BatchItemMissingFields(index: nat)
    | BatchItemInvalidType(index: nat)
    | BatchItemInvalidDate(index: nat)
    | StartNotBeforeEnd
    | DateOutsideWindow         // createShift: date outside [startDate, endDate]
    | OutsidePinWindow          // createPin: shift outside its window's timeframe
    | NothingToUpdate
    | WeightRequired
    | WeightNotNonNegative
    | UserNotFound
    | ShiftNotFound
    | WindowNotFound
    | InviteNotFound
    | EmailTaken
    | UnusedInviteExists
    | AlreadyPinned
    | DuplicateShift
    | InviteUsed
    | NoBearerToken
    | TokenRejected
    | TokenUserGone
    | AuthenticationRequired
    | AdminRequired
    | InternalError             // an exception caught by the controller's catch-all

  /** The HTTP status each error is answered with. */
  function StatusOf(r: Reason): (code: int)
    ensures 400 <= code < 600
  {
    match r
    case UserNotFound | ShiftNotFound | WindowNotFound | InviteNotFound => 404
    case EmailTaken | UnusedInviteExists | AlreadyPinned | DuplicateShift => 409
    case InviteUsed => 410
    case NoBearerToken | TokenRejected | TokenUserGone | AuthenticationRequired => 401
    case AdminRequired => 403
    case InternalError => 500
    case _ => 400
  }

  /** A controller's answer: a success status with its payload, or an error. */
  datatype Reply<T> = Ok(status: int, body: T) | Err(reason: Reason)
  {
    function Status(): int
    {
      match this
      case Ok(s, _) => s
      case Err(r) => StatusOf(r)
    }
  }

  // ---------------------------------------------------------------------------
  // Request fields
  // ---------------------------------------------------------------------------

  /** JavaScript truthiness of an optional string field: present and non-empty. */
  predicate Given(s: Option<string>)
  {
    s.Some? && s.value != ""
  }

  /**
   * A date field of a JSON body as `new Date(field)` sees it: left out,
   * the empty string, a string that parses to an invalid date, or an instant.
   */
  datatype DateField = Undefined | Empty | Unparsable | Parsed(t: Time)
  {
    /** `!field` */
    predicate Falsy()
    {
      Undefined? || Empty?
    }
  }

  // ---------------------------------------------------------------------------
  // Numbers
  // ---------------------------------------------------------------------------

  /** `Math.round`: the nearest integer, with halves rounded up. */
  function Round(x: real): int
  {
    (x + 0.5).Floor
  }

  // ---------------------------------------------------------------------------
  // Strings
  // ---------------------------------------------------------------------------

  /** `s.startsWith(p)` */
  predicate StartsWith(s: string, p: string)
  {
    |p| <= |s| && s[..|p|] == p
  }

  /** A string that differs from `p` at a position both have does not start with `p`. */
  lemma DiffersAt(s: string, p: string, k: nat)
    requires k < |p| && k < |s| && s[k] != p[k]
    ensures !StartsWith(s, p)
  {
    if |p| <= |s| {
      assert s[..|p|][k] == s[k];
    }
  }

  /** p occurs in s starting at offset i. */
  predicate OccursAt(s: string, p: string, i: int)
  {
    0 <= i <= |s| - |p| && s[i..i + |p|] == p
  }

  /** `s.includes(p)`: p occurs in s at some offset. */
  predicate Contains(s: string, p: string)
  {
    exists i :: 0 <= i <= |s| - |p| && OccursAt(s, p, i)
  }

  /** `toLowerCase` on ASCII letters; other characters are kept. */
  function LowerChar(c: char): char
  {
    if 'A' <= c <= 'Z' then (c as int + 32) as char else c
  }

  /** `toUpperCase` on ASCII letters; other characters are kept. */
  function UpperChar(c: char): char
  {
    if 'a' <= c <= 'z' then (c as int - 32) as char else c
  }

  function Lower(s: string): (r: string)
    ensures |r| == |s|
    ensures forall i :: 0 <= i < |s| ==> r[i] == LowerChar(s[i])
  {
    if s == [] then [] else [LowerChar(s[0])] + Lower(s[1..])
  }

  function Upper(s: string): (r: string)
    ensures |r| == |s|
    ensures forall i :: 0 <= i < |s| ==> r[i] == UpperChar(s[i])
  {
    if s == [] then [] else [UpperChar(s[0])] + Upper(s[1..])
  }

  /** Lower-casing forgets an upper-casing done before it. */
  lemma LowerOfUpper(s: string)
    ensures Lower(Upper(s)) == Lower(s)
  {
    forall i | 0 <= i < |s| ensures Lower(Upper(s))[i] == Lower(s)[i]
    {
      assert Upper(s)[i] == UpperChar(s[i]);
    }
  }

  /** Decimal digits of a natural number, as `${n}` writes them. */
  function NatToString(n: nat): (s: string)
    ensures |s| >= 1
    ensures forall i :: 0 <= i < |s| ==> '0' <= s[i] <= '9'
    decreases n
  {
    if n < 10 then [(48 + n) as char] else NatToString(n / 10) + [(48 + n % 10) as char]
  }

  /** The number a string of decimal digits denotes, most significant digit first. */
  function DigitsValue(s: string): int
  {
    if s == [] then 0 else 10 * DigitsValue(s[..|s| - 1]) + (s[|s| - 1] as int - 48)
  }

  /** The digits `NatToString` writes read back as the number, so distinct numbers get distinct texts. */
  lemma {:induction false} NatToStringReadsBack(n: nat)
    ensures DigitsValue(NatToString(n)) == n
  {
    if n >= 10 {
      NatToStringReadsBack(n / 10);
      var s := NatToString(n);
      assert s[..|s| - 1] == NatToString(n / 10);
    }
  }

  // ---------------------------------------------------------------------------
  // Filtering
  // ---------------------------------------------------------------------------

  /** `xs.filter(keep)`: the elements that pass, in their original order. */
  function Filter<T>(xs: seq<T>, keep: T -> bool): (r: seq<T>)
    ensures |r| <= |xs|
    ensures forall i :: 0 <= i < |r| ==> r[i] in xs && keep(r[i])
    ensures forall i :: 0 <= i < |xs| && keep(xs[i]) ==> xs[i] in r
  {
    if xs == [] then []
    else
      var front, last := xs[..|xs| - 1], xs[|xs| - 1];
      assert xs == front + [last];
      Filter(front, keep) + (if keep(last) then [last] else [])
  }

  /** An element is in the filtered list iff it is in the input and passes. */
  lemma FilterMembership<T>(xs: seq<T>, keep: T -> bool)
    ensures forall x :: x in Filter(xs, keep) <==> x in xs && keep(x)
  {
    forall x | x in Filter(xs, keep) ensures x in xs && keep(x)
    {
      var i :| 0 <= i < |Filter(xs, keep)| && Filter(xs, keep)[i] == x;
    }
  }

  lemma FilterSnoc<T>(xs: seq<T>, x: T, keep: T -> bool)
    ensures Filter(xs + [x], keep) == Filter(xs, keep) + (if keep(x) then [x] else [])
  {
    assert (xs + [x])[..|xs|] == xs;
  }

  /** A filter that every element passes returns its input unchanged. */
  lemma {:induction false} FilterKeepsAll<T>(xs: seq<T>, keep: T -> bool)
    requires forall i :: 0 <= i < |xs| ==> keep(xs[i])
    ensures Filter(xs, keep) == xs
  {
    if xs != [] {
      var front := xs[..|xs| - 1];
      FilterKeepsAll(front, keep);
      assert xs == front + [xs[|xs| - 1]];
    }
  }

  /** An element passes exactly one of a filter and its complement, so the two counts add up. */
  lemma {:induction false} FilterComplement<T>(xs: seq<T>, keep: T -> bool, drop: T -> bool)
    requires forall x :: drop(x) == !keep(x)
    ensures |Filter(xs, keep)| + |Filter(xs, drop)| == |xs|
  {
    if xs != [] {
      FilterComplement(xs[..|xs| - 1], keep, drop);
    }
  }

  /** r is xs with some elements left out: r[k] sits at position idx[k] of xs, and the positions increase. */
  predicate EmbedsAt<T(==)>(r: seq<T>, xs: seq<T>, idx: seq<nat>)
  {
    && |idx| == |r|
    && (forall k :: 0 <= k < |idx| ==> idx[k] < |xs| && r[k] == xs[idx[k]])
    && (forall k, l :: 0 <= k < l < |idx| ==> idx[k] < idx[l])
  }

  /** An order-preserving subsequence. */
  ghost predicate Subsequence<T>(r: seq<T>, xs: seq<T>)
  {
    exists idx :: EmbedsAt(r, xs, idx)
  }

  /** Where the survivors of a filter stood in its input. */
  function FilterPositions<T(==)>(xs: seq<T>, keep: T -> bool): (idx: seq<nat>)
    ensures EmbedsAt(Filter(xs, keep), xs, idx)
  {
    if xs == [] then []
    else
      var front, last := xs[..|xs| - 1], xs[|xs| - 1];
      var pf := FilterPositions(front, keep);
      FilterSnoc(front, last, keep);
      assert xs == front + [last];
      EmbedsExtend(Filter(front, keep), front, pf, last, keep(last));
      pf + (if keep(last) then [|xs| - 1] else [])
  }

  /** An embedding into xs stays one into xs + [x], and may take x as its new last element. */
  lemma EmbedsExtend<T>(r: seq<T>, xs: seq<T>, idx: seq<nat>, x: T, take: bool)
    requires EmbedsAt(r, xs, idx)
    ensures EmbedsAt(r + (if take then [x] else []), xs + [x], idx + (if take then [|xs|] else []))
  {
    var r', xs', idx' := r + (if take then [x] else []), xs + [x], idx + (if take then [|xs|] else []);
    forall k | 0 <= k < |idx'|
      ensures idx'[k] < |xs'| && r'[k] == xs'[idx'[k]]
    {
      if k < |idx| {
        assert idx'[k] == idx[k] && r'[k] == r[k] && xs'[idx[k]] == xs[idx[k]];
      }
    }
  }

  /** A filter keeps its survivors in their input order. */
  lemma FilterIsSubsequence<T>(xs: seq<T>, keep: T -> bool)
    ensures Subsequence(Filter(xs, keep), xs)
  {
    var idx := FilterPositions(xs, keep);
  }

  /** A subsequence of a subsequence is a subsequence. */
  lemma SubsequenceTransitive<T>(a: seq<T>, b: seq<T>, c: seq<T>)
    requires Subsequence(a, b) && Subsequence(b, c)
    ensures Subsequence(a, c)
  {
    var ia :| EmbedsAt(a, b, ia);
    var ib :| EmbedsAt(b, c, ib);
    var ic := seq(|ia|, k requires 0 <= k < |ia| => ib[ia[k]]);
    assert EmbedsAt(a, c, ic);
  }

  /** Every sequence is a subsequence of itself. */
  lemma SubsequenceReflexive<T>(xs: seq<T>)
    ensures Subsequence(xs, xs)
  {
    var idx := seq(|xs|, k requires 0 <= k < |xs| => k);
    assert EmbedsAt(xs, xs, idx);
  }
}
