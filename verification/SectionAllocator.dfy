/** The memory manager that carves the sections of one module out of three reserved blocks. */
module SectionAllocator {

  datatype Option<T> = None | Some(value: T)

  // ---------- addresses as bit patterns ----------

  const ADDRESS_BITS: nat := 64
  const ADDRESS_LIMIT: nat := 0x1_0000_0000_0000_0000

  function Pow2(n: nat): (p: nat)
    ensures p >= 1
  {
    if n == 0 then 1 else 2 * Pow2(n - 1)
  }

  function BitAnd(x: nat, y: nat): nat
    decreases x
  {
    if x == 0 || y == 0 then 0
    else (if x % 2 == 1 && y % 2 == 1 then 1 else 0) + 2 * BitAnd(x / 2, y / 2)
  }

  /** The bitwise complement of an address-sized word. */
  function Complement(x: nat): nat
    requires x < ADDRESS_LIMIT
  {
    ADDRESS_LIMIT - 1 - x
  }

  lemma {:induction false} Pow2Sum(a: nat, b: nat)
    ensures Pow2(a + b) == Pow2(a) * Pow2(b)
  {
    if a > 0 {
      Pow2Sum(a - 1, b);
      Doubled(Pow2(a - 1), Pow2(b));
    }
  }

  lemma Doubled(x: nat, y: nat)
    ensures 2 * (x * y) == (2 * x) * y
  {
  }

  lemma AddressLimit()
    ensures Pow2(ADDRESS_BITS) == ADDRESS_LIMIT
  {
    assert Pow2(1) == 2;
    Pow2Square(1, 2);
    Pow2Square(2, 4);
    Pow2Square(4, 16);
    Pow2Square(8, 256);
    Pow2Square(16, 65_536);
    Pow2Square(32, 4_294_967_296);
  }

  lemma Pow2Square(a: nat, x: nat)
    requires Pow2(a) == x
    ensures Pow2(2 * a) == x * x
  {
    Pow2Sum(a, a);
  }

  /** The test for powers of two that the allocator asserts. */
  predicate HasOneBit(x: nat) {
    x > 0 && BitAnd(x, x - 1) == 0
  }

  lemma {:induction false} HasOneBitIsPower(x: nat) returns (k: nat)
    requires HasOneBit(x)
    ensures x == Pow2(k)
    decreases x
  {
    k := 0;
    if x > 1 {
      HalfHasOneBit(x);
      k := HasOneBitIsPower(x / 2);
      k := k + 1;
    }
  }

  lemma HalfHasOneBit(x: nat)
    requires HasOneBit(x) && x > 1
    ensures x % 2 == 0 && HasOneBit(x / 2)
  {
    var half := x / 2;
    AndSelf(half);
    assert (x - 1) / 2 == if x % 2 == 1 then half else half - 1;
  }

  lemma {:induction false} AndSelf(x: nat)
    ensures BitAnd(x, x) == x
    decreases x
  {
    if x > 0 {
      AndSelf(x / 2);
    }
  }

  lemma {:induction false} AndOnes(x: nat, w: nat)
    requires x < Pow2(w)
    ensures BitAnd(x, Pow2(w) - 1) == x
    decreases w
  {
    if w > 0 && x > 0 {
      AndOnes(x / 2, w - 1);
      assert (Pow2(w) - 1) / 2 == Pow2(w - 1) - 1;
    }
  }

  function RoundDown(x: nat, k: nat): nat {
    if k == 0 then x else 2 * RoundDown(x / 2, k - 1)
  }

  /** Masking with the complement of 2^k - 1 clears the last k bits, */
  lemma {:induction false} AndMask(x: nat, w: nat, k: nat)
    requires x < Pow2(w) && k <= w
    ensures Pow2(k) <= Pow2(w) && BitAnd(x, Pow2(w) - Pow2(k)) == RoundDown(x, k)
    decreases w
  {
    if k == 0 {
      AndOnes(x, w);
    } else {
      AndMask(x / 2, w - 1, k - 1);
      HalfMask(w, k);
      if x == 0 || Pow2(w) == Pow2(k) {
        RoundDownSmall(x, k);
      }
    }
  }

  lemma HalfMask(w: nat, k: nat)
    requires 0 < k <= w && Pow2(k - 1) <= Pow2(w - 1)
    ensures Pow2(k) <= Pow2(w) && (Pow2(w) - Pow2(k)) % 2 == 0
    ensures (Pow2(w) - Pow2(k)) / 2 == Pow2(w - 1) - Pow2(k - 1)
  {
  }

  lemma {:induction false} RoundDownSmall(x: nat, k: nat)
    requires x < Pow2(k)
    ensures RoundDown(x, k) == 0
    decreases k
  {
    if k > 0 {
      RoundDownSmall(x / 2, k - 1);
    }
  }

  /** which is rounding down to a multiple of 2^k. */
  lemma {:induction false} RoundDownIsRemainder(x: nat, k: nat)
    ensures RoundDown(x, k) == x - x % Pow2(k)
    decreases k
  {
    if k > 0 {
      RoundDownIsRemainder(x / 2, k - 1);
      HalfRemainder(x, Pow2(k - 1));
    }
  }

  lemma HalfRemainder(x: nat, m: nat)
    requires m > 0
    ensures 2 * (x / 2 - (x / 2) % m) == x - x % (2 * m)
  {
    var q, r := (x / 2) / m, (x / 2) % m;
    assert x / 2 == q * m + r;
    var rest := 2 * r + x % 2;
    assert x == q * (2 * m) + rest by {
      assert q * (2 * m) == 2 * (q * m);
    }
    RemainderIs(x, 2 * m, q, rest);
  }

  lemma RemainderIs(x: nat, m: nat, q: nat, r: nat)
    requires m > 0 && x == q * m + r && r < m
    ensures x % m == r && x / m == q
  {
    var d := x / m - q;
    assert x == (x / m) * m + x % m;
    assert d * m == (x / m) * m - q * m;
    assert d >= 1 ==> d * m >= m;
    assert d <= -1 ==> d * m + m <= 0;
  }

  // ---------- rounding up ----------

  /** The least multiple of `a` that is not below `x`. */
  function RoundUp(x: nat, a: nat): (r: nat)
    requires a > 0
    ensures r % a == 0 && x <= r < x + a
  {
    RoundDownProperties(x + a - 1, a);
    x + a - 1 - (x + a - 1) % a
  }

  lemma RoundDownProperties(y: nat, a: nat)
    requires a > 0
    ensures (y - y % a) % a == 0
  {
    assert y - y % a == (y / a) * a + 0;
    RemainderIs(y - y % a, a, y / a, 0);
  }

  lemma MultipleOf(x: nat, a: nat) returns (q: nat)
    requires a > 0 && x % a == 0
    ensures x == q * a
  {
    q := x / a;
  }

  lemma RoundUpIsLeast(x: nat, a: nat, bound: nat)
    requires a > 0 && bound % a == 0 && x <= bound
    ensures RoundUp(x, a) <= bound
  {
    var r := RoundUp(x, a);
    var p := MultipleOf(r, a);
    var q := MultipleOf(bound, a);
    NotBetween(p, q, a);
  }

  /** No multiple lies strictly between one multiple and the next. */
  lemma NotBetween(p: nat, q: nat, a: nat)
    requires p * a < q * a + a
    ensures p * a <= q * a
  {
    assert (q + 1) * a == q * a + a;
    if q < p {
      MoreIsLarger(q + 1, p, a);
    } else {
      MoreIsLarger(p, q, a);
    }
  }

  lemma MoreIsLarger(p: nat, q: nat, a: nat)
    requires p <= q
    ensures p * a <= q * a
  {
  }

  /** The mask form of the code is arithmetic rounding up. */
  lemma MaskRoundsUp(x: nat, a: nat)
    requires HasOneBit(a) && x + a <= ADDRESS_LIMIT
    ensures a - 1 < ADDRESS_LIMIT
    ensures BitAnd(x + a - 1, Complement(a - 1)) == RoundUp(x, a)
  {
    AddressLimit();
    MaskRoundsUpAt(x, a, ADDRESS_BITS, ADDRESS_LIMIT);
  }

  lemma MaskRoundsUpAt(x: nat, a: nat, w: nat, limit: nat)
    requires HasOneBit(a) && x + a <= limit == Pow2(w)
    ensures BitAnd(x + a - 1, limit - 1 - (a - 1)) == RoundUp(x, a)
  {
    var k := HasOneBitIsPower(a);
    MaskIsRemainder(x + a - 1, k, w, limit - a);
  }

  lemma MaskIsRemainder(y: nat, k: nat, w: nat, mask: nat)
    requires y < Pow2(w) && Pow2(k) <= Pow2(w) && mask == Pow2(w) - Pow2(k)
    ensures BitAnd(y, mask) == y - y % Pow2(k)
  {
    Pow2Monotone(k, w);
    AndMask(y, w, k);
    RoundDownIsRemainder(y, k);
  }

  lemma {:induction false} Pow2Monotone(k: nat, w: nat)
    requires Pow2(k) <= Pow2(w)
    ensures k <= w
    decreases k
  {
    if k > 0 && w > 0 {
      Pow2Monotone(k - 1, w - 1);
    }
  }

  // ---------- what one request does ----------

  datatype Request = Request(size: nat, alignment: nat)

  /** No alignment means 16 bytes. */
  function Effective(alignment: nat): nat {
    if alignment == 0 then 16 else alignment
  }

  /** Alignments are powers of two, and the sums do not wrap around. */
  predicate Askable(r: Request, current: nat) {
    HasOneBit(Effective(r.alignment)) && current + r.size + 2 * Effective(r.alignment) <= ADDRESS_LIMIT
  }

  class AllocInfo {
    var end: nat
    var current: nat

    constructor ()
      ensures end == 0 && current == 0
    {
      end, current := 0, 0;
    }

    method SetAllocation(addr: nat, size: nat)
      modifies this
      ensures current == addr && end == addr + size
    {
      current := addr;
      end := addr + size;
    }

    /** Null if and only if the bare size does not fit any more; otherwise the next aligned address, which
        the last block branch does not check against the end. */
    method GetNextAddr(size: nat, alignment: nat) returns (r: Option<nat>)
      requires Askable(Request(size, alignment), current)
      modifies this`current
      ensures r.None? <==> end < old(current) + size
      ensures r.None? ==> current == old(current)
      ensures r.Some? ==> r.value == RoundUp(old(current), Effective(alignment)) && current == r.value + size
      ensures r.Some? ==> var a := if alignment == 0 then 16 else alignment;
                          r.value % a == 0 && old(current) <= r.value < old(current) + a
    {
      var a := if alignment == 0 then 16 else alignment;
      var requiredSize := a * ((size + a - 1) / a + 1);
      RequiredSizeSuffices(size, a);
      if current + requiredSize > end {
        if current + size <= end {
          requiredSize := size;
        } else {
          return None;
        }
      }
      var addr := current;
      MaskRoundsUp(addr, a);
      addr := BitAnd(addr + a - 1, Complement(a - 1));
      current := addr + size;
      r := Some(addr);
    }

    predicate IsSet()
      reads this
    {
      current != 0
    }

    /** A run of requests, one call after the other. */
    method GetAddrs(requests: seq<Request>) returns (answers: seq<Option<nat>>)
      requires AllAskable(requests, current, end)
      modifies this`current
      ensures answers == Answers(old(current), end, requests)
    {
      answers := [];
      ghost var rest, goal := requests, Answers(current, end, requests);
      for i := 0 to |requests|
        invariant rest == requests[i..] && StillToAnswer(answers, current, end, rest, goal)
      {
        ghost var before := current;
        var answer := GetNextAddr(requests[i].size, requests[i].alignment);
        OneMoreAnswer(answers, answer, before, current, end, rest, goal);
        answers := answers + [answer];
        rest := rest[1..];
      }
    }
  }

  /** The rest of the requests can be asked for, and its answers are what is missing. */
  predicate StillToAnswer(answers: seq<Option<nat>>, current: nat, end: nat, rest: seq<Request>,
                          goal: seq<Option<nat>>) {
    AllAskable(rest, current, end) && answers + Answers(current, end, rest) == goal
  }

  lemma OneMoreAnswer(answers: seq<Option<nat>>, answer: Option<nat>, before: nat, after: nat, end: nat,
                      rest: seq<Request>, goal: seq<Option<nat>>)
    requires rest != [] && StillToAnswer(answers, before, end, rest, goal)
    requires answer == if end < before + rest[0].size then None else Some(RoundUp(before, Effective(rest[0].alignment)))
    requires after == if answer.None? then before else answer.value + rest[0].size
    ensures StillToAnswer(answers + [answer], after, end, rest[1..], goal)
  {
    assert answers + ([answer] + Answers(after, end, rest[1..])) == answers + [answer] + Answers(after, end, rest[1..]);
  }

  /** Every request can be asked when its turn comes. */
  predicate AllAskable(requests: seq<Request>, current: nat, end: nat)
    ensures AllAskable(requests, current, end) ==> forall r | r in requests :: Effective(r.alignment) > 0
    decreases |requests|
  {
    requests == [] ||
    (Askable(requests[0], current) &&
     AllAskable(requests[1..], if end < current + requests[0].size then current
                               else RoundUp(current, Effective(requests[0].alignment)) + requests[0].size, end))
  }

  /** The size asked for in the first branch covers the alignment gap. */
  lemma RequiredSizeSuffices(size: nat, a: nat)
    requires a > 0
    ensures a * ((size + a - 1) / a + 1) >= size + a
  {
    var q, r := (size + a - 1) / a, (size + a - 1) % a;
    assert size + a - 1 == q * a + r;
    assert a * (q + 1) == q * a + a;
  }

  // ---------- whole runs of requests ----------

  /** The answers to a sequence of requests to one reserved block. */
  function Answers(current: nat, end: nat, requests: seq<Request>): (answers: seq<Option<nat>>)
    requires forall r | r in requests :: Effective(r.alignment) > 0
    ensures |answers| == |requests|
    decreases |requests|
  {
    if requests == [] then []
    else
      var r := requests[0];
      if end < current + r.size then [None] + Answers(current, end, requests[1..])
      else
        var addr := RoundUp(current, Effective(r.alignment));
        [Some(addr)] + Answers(addr + r.size, end, requests[1..])
  }

  /** The size to reserve: every section rounded up to the common alignment. */
  function Reservation(requests: seq<Request>, common: nat): (size: nat)
    requires common > 0
    ensures size % common == 0
    decreases |requests|
  {
    if requests == [] then 0
    else
      var first, more := RoundUp(requests[0].size, common), Reservation(requests[1..], common);
      SumOfMultiples(first, more, common);
      first + more
  }

  lemma SumOfMultiples(x: nat, y: nat, a: nat)
    requires a > 0 && x % a == 0 && y % a == 0
    ensures (x + y) % a == 0
  {
    var p := MultipleOf(x, a);
    var q := MultipleOf(y, a);
    assert x + y == (p + q) * a + 0;
    RemainderIs(x + y, a, p + q, 0);
  }

  lemma MultipleOfDivisor(x: nat, common: nat, a: nat)
    requires common > 0 && a > 0 && common % a == 0 && x % common == 0
    ensures x % a == 0
  {
    var p := MultipleOf(x, common);
    var q := MultipleOf(common, a);
    assert x == p * (q * a) == (p * q) * a + 0;
    RemainderIs(x, a, p * q, 0);
  }

  predicate DividesCommon(requests: seq<Request>, common: nat) {
    forall r | r in requests :: Effective(r.alignment) > 0 && common % Effective(r.alignment) == 0
  }

  /** A block inside [low, high), at an aligned address. */
  ghost predicate Placed(answer: Option<nat>, r: Request, low: nat, high: nat)
    requires Effective(r.alignment) > 0
  {
    answer.Some? && answer.value % Effective(r.alignment) == 0 && low <= answer.value && answer.value + r.size <= high
  }

  /** Every request finds its place behind the one before it. */
  predicate Fits(current: nat, end: nat, requests: seq<Request>)
    requires forall r | r in requests :: Effective(r.alignment) > 0
    decreases |requests|
  {
    if requests == [] then true
    else
      var next := RoundUp(current, Effective(requests[0].alignment)) + requests[0].size;
      next <= end && Fits(next, end, requests[1..])
  }

  lemma {:induction false} FitsIntoReservation(current: nat, bound: nat, requests: seq<Request>, common: nat)
    requires common > 0 && DividesCommon(requests, common) && bound % common == 0 && current <= bound
    ensures Fits(current, bound + Reservation(requests, common), requests)
    decreases |requests|
  {
    if requests != [] {
      var r, rest := requests[0], requests[1..];
      var rounded := RoundUp(r.size, common);
      MultipleOfDivisor(bound, common, Effective(r.alignment));
      RoundUpIsLeast(current, Effective(r.alignment), bound);
      SumOfMultiples(bound, rounded, common);
      var next := RoundUp(current, Effective(r.alignment)) + r.size;
      FitsIntoReservation(next, bound + rounded, rest, common);
      assert bound + rounded + Reservation(rest, common) == bound + Reservation(requests, common);
    }
  }

  lemma {:induction false} FitsMeansPlaced(current: nat, end: nat, requests: seq<Request>, i: nat, j: nat)
    requires (forall r | r in requests :: Effective(r.alignment) > 0) && Fits(current, end, requests)
    requires i < j < |requests| || i == j < |requests|
    ensures var answers := Answers(current, end, requests);
            Placed(answers[i], requests[i], current, end) && Placed(answers[j], requests[j], current, end) &&
            (i < j ==> answers[i].value + requests[i].size <= answers[j].value)
    decreases |requests|
  {
    var rest := requests[1..];
    var next := RoundUp(current, Effective(requests[0].alignment)) + requests[0].size;
    if j > 0 {
      assert requests[j] == rest[j - 1];
      FitsMeansPlaced(next, end, rest, if i > 0 then i - 1 else j - 1, j - 1);
      if i > 0 {
        assert requests[i] == rest[i - 1];
      }
    }
  }

  /** If the base is aligned to the common alignment and the reservation is the sum of the rounded sizes,
      then in whatever order the requests come none is refused, every block is aligned and inside the
      reservation, and no two overlap. */
  lemma RunFits(base: nat, requests: seq<Request>, common: nat)
    requires common > 0 && DividesCommon(requests, common) && base % common == 0
    ensures var end := base + Reservation(requests, common);
            var answers := Answers(base, end, requests);
            (forall i | 0 <= i < |requests| :: Placed(answers[i], requests[i], base, end)) &&
            (forall i, j | 0 <= i < j < |requests| ::
               answers[i].Some? && answers[j].Some? && answers[i].value + requests[i].size <= answers[j].value)
  {
    var end := base + Reservation(requests, common);
    FitsIntoReservation(base, base, requests, common);
    forall i | 0 <= i < |requests| ensures Placed(Answers(base, end, requests)[i], requests[i], base, end) {
      FitsMeansPlaced(base, end, requests, i, i);
    }
    forall i, j | 0 <= i < j < |requests|
      ensures Answers(base, end, requests)[i].value + requests[i].size <= Answers(base, end, requests)[j].value
    {
      FitsMeansPlaced(base, end, requests, i, j);
    }
  }

  /** Such a run can be asked for, when the alignments are powers of two and the reservation is not at the
      very end of the address space. */
  lemma RunIsAskable(base: nat, requests: seq<Request>, common: nat)
    requires common > 0 && DividesCommon(requests, common) && base % common == 0
    requires forall r | r in requests :: HasOneBit(Effective(r.alignment))
    requires base + Reservation(requests, common) + 2 * common <= ADDRESS_LIMIT
    ensures AllAskable(requests, base, base + Reservation(requests, common))
  {
    FitsIntoReservation(base, base, requests, common);
    FittingIsAskable(base, base + Reservation(requests, common), requests, common);
  }

  lemma {:induction false} FittingIsAskable(current: nat, end: nat, requests: seq<Request>, common: nat)
    requires common > 0 && DividesCommon(requests, common) && Fits(current, end, requests)
    requires forall r | r in requests :: HasOneBit(Effective(r.alignment))
    requires end + 2 * common <= ADDRESS_LIMIT
    ensures AllAskable(requests, current, end)
    decreases |requests|
  {
    if requests != [] {
      var r := requests[0];
      DivisorIsSmall(Effective(r.alignment), common);
      FittingIsAskable(RoundUp(current, Effective(r.alignment)) + r.size, end, requests[1..], common);
    }
  }

  lemma DivisorIsSmall(a: nat, common: nat)
    requires a > 0 && common > 0 && common % a == 0
    ensures a <= common
  {
    if common < a {
      RemainderIs(common, a, 0, common);
    }
  }

  /** Whatever was reserved: all requests of a run are answered with blocks inside exactly if every one,
      rounded up to its own alignment, finds its place behind the one before it. */
  lemma {:induction false} InsideExactly(current: nat, end: nat, requests: seq<Request>)
    requires forall r | r in requests :: Effective(r.alignment) > 0
    ensures Fits(current, end, requests) <==> AllInside(Answers(current, end, requests), requests, end)
    decreases |requests|
  {
    if requests != [] {
      var r, rest := requests[0], requests[1..];
      if end < current + r.size {
        InsideCons(None, Answers(current, end, rest), r, rest, end);
      } else {
        var addr := RoundUp(current, Effective(r.alignment));
        InsideExactly(addr + r.size, end, rest);
        InsideCons(Some(addr), Answers(addr + r.size, end, rest), r, rest, end);
      }
      assert requests == [r] + rest;
    }
  }

  /** All blocks are given out, and end inside. */
  predicate AllInside(answers: seq<Option<nat>>, requests: seq<Request>, end: nat)
    requires |answers| == |requests|
  {
    forall i | 0 <= i < |requests| :: answers[i].Some? && answers[i].value + requests[i].size <= end
  }

  lemma InsideCons(answer: Option<nat>, answers: seq<Option<nat>>, r: Request, rest: seq<Request>, end: nat)
    requires |answers| == |rest|
    ensures AllInside([answer] + answers, [r] + rest, end) <==>
            answer.Some? && answer.value + r.size <= end && AllInside(answers, rest, end)
  {
    if AllInside([answer] + answers, [r] + rest, end) {
      assert ([answer] + answers)[0].Some? && answer.value + r.size <= end;
      assert forall i | 0 <= i < |rest| :: ([answer] + answers)[i + 1] == answers[i] && ([r] + rest)[i + 1] == rest[i];
    }
  }

  /** Without such a reservation the last block may run over the end: it does so exactly when its bare
      size still fits but the gap in front of it does not. */
  lemma OvershootCondition(current: nat, end: nat, r: Request)
    requires Effective(r.alignment) > 0
    ensures var answer := Answers(current, end, [r])[0];
            answer.Some? && answer.value + r.size > end <==>
              current + r.size <= end < RoundUp(current, Effective(r.alignment)) + r.size
  {
  }

  /** From an aligned base with room for the bare sizes, the second block runs over the end. */
  lemma OvershootExample(requests: seq<Request>)
    requires requests == [Request(1, 1), Request(16, 16)]
    ensures 4096 % 16 == 0 && Answers(4096, 4096 + 17, requests) == [Some(4096), Some(4112)] && 4112 + 16 > 4096 + 17
    ensures !Fits(4096, 4096 + 17, requests)
  {
    assert RoundUp(4096, 1) == 4096 && RoundUp(4097, 16) == 4112;
    var rest := requests[1..];
    assert rest == [Request(16, 16)] && rest[1..] == [];
    assert Answers(4097, 4113, rest) == [Some(4112)] + Answers(4128, 4113, rest[1..]);
  }

  // ---------- the three reservations of a module ----------

  class ClingMemoryManager {
    const code: AllocInfo
    const roData: AllocInfo
    const rwData: AllocInfo

    constructor ()
      ensures Valid() && fresh(code) && fresh(roData) && fresh(rwData)
      ensures !code.IsSet() && !roData.IsSet() && !rwData.IsSet()
    {
      code := new AllocInfo();
      roData := new AllocInfo();
      rwData := new AllocInfo();
    }

    predicate Valid() {
      code != roData && code != rwData && roData != rwData
    }

    /** The blocks come from the base class; a null address leaves a reservation unset. */
    method ReserveAllocationSpace(codeAddr: nat, codeSize: nat, roAddr: nat, roSize: nat, rwAddr: nat, rwSize: nat)
      requires Valid()
      modifies code, roData, rwData
      ensures code.current == codeAddr && code.end == codeAddr + codeSize
      ensures roData.current == roAddr && roData.end == roAddr + roSize
      ensures rwData.current == rwAddr && rwData.end == rwAddr + rwSize
    {
      code.SetAllocation(codeAddr, codeSize);
      roData.SetAllocation(roAddr, roSize);
      rwData.SetAllocation(rwAddr, rwSize);
    }

    /** `fallback` is what the base class would answer. */
    method AllocateCodeSection(size: nat, alignment: nat, fallback: nat) returns (addr: nat)
      requires Valid() && Askable(Request(size, alignment), code.current)
      modifies code`current
      ensures if old(code.current) != 0 && old(code.current) + size <= old(code.end) then
                addr == RoundUp(old(code.current), if alignment == 0 then 16 else alignment) &&
                code.current == addr + size
              else addr == fallback && code.current == old(code.current)
    {
      addr := 0;
      if code.IsSet() {
        var r := code.GetNextAddr(size, alignment);
        addr := if r.Some? then r.value else 0;
      }
      if addr == 0 {
        addr := fallback;
      }
    }

    method AllocateDataSection(size: nat, alignment: nat, isReadOnly: bool, fallback: nat) returns (addr: nat)
      requires Valid() && Askable(Request(size, alignment), if isReadOnly then roData.current else rwData.current)
      modifies roData`current, rwData`current
      ensures var info := if isReadOnly then roData else rwData;
              if old(info.current) != 0 && old(info.current) + size <= old(info.end) then
                addr == RoundUp(old(info.current), if alignment == 0 then 16 else alignment) &&
                info.current == addr + size
              else addr == fallback && info.current == old(info.current)
      ensures if isReadOnly then rwData.current == old(rwData.current) else roData.current == old(roData.current)
    {
      addr := 0;
      if isReadOnly {
        if roData.IsSet() {
          var r := roData.GetNextAddr(size, alignment);
          addr := if r.Some? then r.value else 0;
        }
      } else if rwData.IsSet() {
        var r := rwData.GetNextAddr(size, alignment);
        addr := if r.Some? then r.value else 0;
      }
      if addr == 0 {
        addr := fallback;
      }
    }
  }
}
