/** IPv4 addresses as net/netip handles them, and tenant.pickAddress over a
    range every tenant shares. */
module Addresses {
  import opened Basics
  import opened Text

  /** NoAddr is netip's zero Addr; a V6 is only ever compared. */
  datatype Addr = NoAddr | V4(n: nat) | V6(text: string)

  const V4_COUNT := 0x1_0000_0000

  predicate Valid4(n: nat) { n < V4_COUNT }

  function BitLen(a: Addr): nat {
    match a case NoAddr => 0 case V4(_) => 32 case V6(_) => 128
  }

  /** Addr.Compare against an IPv4 bound: bit length first, then value. */
  function Compare4(a: Addr, bound: nat): int {
    if BitLen(a) != 32 then BitLen(a) - 32
    else if a.V4? then a.n - bound else 0
  }

  /** Addr.Next: the last IPv4 address has none. */
  function NextAddr(a: Addr): Addr {
    if a.V4? && a.n + 1 < V4_COUNT then V4(a.n + 1) else NoAddr
  }

  datatype Range = Range(first: nat, last: nat) {
    /** AddressRange.Contains */
    predicate Contains(a: Addr) {
      Compare4(a, first) >= 0 && Compare4(a, last) <= 0
    }
  }

  function Dotted(n: nat): string {
    DottedQuad(n / 16777216, n / 65536 % 256, n / 256 % 256, n % 256)
  }

  /** A range holds the IPv4 addresses between its ends, and nothing else. */
  lemma ContainsExactly(r: Range, a: Addr)
    ensures Valid4(r.first) && Valid4(r.last) ==> (r.Contains(a) <==> a.V4? && r.first <= a.n <= r.last)
  {
  }

  /** Four bytes, high first, in decimal with dots between. */
  lemma DottedExactly(a: nat, b: nat, c: nat, d: nat)
    requires a < 256 && b < 256 && c < 256 && d < 256
    ensures Dotted(16777216 * a + 65536 * b + 256 * c + d) ==
      Join([Decimal(a), Decimal(b), Decimal(c), Decimal(d)], '.')
  {
    FourBytes(a, b, c, d);
  }

  lemma FourBytes(a: nat, b: nat, c: nat, d: nat)
    requires a < 256 && b < 256 && c < 256 && d < 256
    ensures var v := 16777216 * a + 65536 * b + 256 * c + d;
      v / 16777216 == a && v / 65536 % 256 == b && v / 256 % 256 == c && v % 256 == d
  {
    var v := 16777216 * a + 65536 * b + 256 * c + d;
    assert v / 256 == 65536 * a + 256 * b + c;
    assert v / 65536 == 256 * a + b;
  }

  lemma DottedInjective(m: nat, n: nat)
    requires Dotted(m) == Dotted(n)
    ensures m == n
  {
    DottedQuadInjective(m / 16777216, m / 65536 % 256, m / 256 % 256, m % 256,
                        n / 16777216, n / 65536 % 256, n / 256 % 256, n % 256);
    Bytes(m);
    Bytes(n);
  }

  lemma Bytes(v: nat)
    ensures v == v / 16777216 * 16777216 + v / 65536 % 256 * 65536 + v / 256 % 256 * 256 + v % 256
  {
    var r0 := v / 256;
    var r1 := r0 / 256;
    assert v / 65536 == r1;
    assert v / 16777216 == r1 / 256;
    assert v == r0 * 256 + v % 256 && r0 == r1 * 256 + r0 % 256 && r1 == r1 / 256 * 256 + r1 % 256;
  }

  /** How an address is written, as far as the allocator goes: any one form
      will do. netip's is Dotted, and DottedInjective says it confuses no two
      addresses. */
  type Form = nat -> string

  /** One row of a trust class: who holds which address for which MAC. */
  datatype Held = Held(tenant: string, device: string, mac: string, address: string)

  datatype Pick = Picked(address: string) | Conflict | QuotaReached | NoneLeft

  function Mine(held: seq<Held>, tenant: string): nat {
    if held == [] then 0
    else Mine(held[..|held| - 1], tenant) + (if held[|held| - 1].tenant == tenant then 1 else 0)
  }

  ghost predicate Taken(held: seq<Held>, address: string) {
    exists i :: 0 <= i < |held| && held[i].address == address
  }

  ghost predicate MacHeld(held: seq<Held>, mac: string) {
    exists i :: 0 <= i < |held| && held[i].mac == mac
  }

  ghost predicate FreeAt(text: Form, r: Range, held: seq<Held>, n: nat) {
    r.first <= n <= r.last && !Taken(held, text(n))
  }

  ghost predicate LowestFree(text: Form, r: Range, held: seq<Held>, n: nat) {
    FreeAt(text, r, held, n) && forall m: nat :: FreeAt(text, r, held, m) ==> n <= m
  }

  /** The rule: one address to a MAC, a tenant within its quota, then the
      address asked for or the lowest free one. */
  ghost predicate IsAddressPick(text: Form, r: Range, quota: nat, tenant: string, mac: string,
                                requested: Option<string>, held: seq<Held>, pick: Pick) {
    if MacHeld(held, mac) then pick == Conflict
    else if Mine(held, tenant) >= quota then pick == QuotaReached
    else if requested.Some? then
      pick == if Taken(held, requested.value) then Conflict else Picked(requested.value)
    else if exists n: nat :: FreeAt(text, r, held, n) then
      exists n: nat :: LowestFree(text, r, held, n) && pick == Picked(text(n))
    else pick == NoneLeft
  }

  /** What a given address is worth: free, in range unless it was asked for,
      and within the quota. */
  lemma PickedFacts(text: Form, r: Range, quota: nat, tenant: string, mac: string, requested: Option<string>,
                    held: seq<Held>, a: string)
    requires IsAddressPick(text, r, quota, tenant, mac, requested, held, Picked(a))
    ensures !MacHeld(held, mac) && !Taken(held, a) && Mine(held, tenant) < quota
    ensures requested.Some? ==> a == requested.value
    ensures requested.None? ==> exists n: nat :: r.first <= n <= r.last && a == text(n)
  {
    if requested.None? {
      var n: nat :| LowestFree(text, r, held, n) && a == text(n);
    }
  }

  /** pickAddress. The scan stops even when the range ends at 255.255.255.255:
      the address after that one is in no range. */
  method PickAddress(text: Form, r: Range, quota: nat, tenant: string, mac: string, requested: Option<string>,
                     held: seq<Held>)
    returns (pick: Pick)
    requires Valid4(r.first) && Valid4(r.last)
    ensures IsAddressPick(text, r, quota, tenant, mac, requested, held, pick)
  {
    var taken: set<string> := {};
    var mine := 0;
    for i := 0 to |held|
      invariant forall j :: 0 <= j < i ==> held[j].mac != mac
      invariant forall a :: a in taken <==> exists j :: 0 <= j < i && held[j].address == a
      invariant mine == Mine(held[..i], tenant)
    {
      if held[i].mac == mac {
        return Conflict;
      }
      taken := taken + {held[i].address};
      assert held[..i + 1][..i] == held[..i];
      if held[i].tenant == tenant {
        mine := mine + 1;
      }
    }
    assert held[..|held|] == held;
    if mine >= quota {
      return QuotaReached;
    }
    if requested.Some? {
      if requested.value in taken {
        return Conflict;
      }
      return Picked(requested.value);
    }
    var addr := V4(r.first);
    ghost var next := r.first;
    while r.Contains(addr)
      invariant addr == (if next < V4_COUNT then V4(next) else NoAddr)
      invariant r.first <= next <= V4_COUNT
      invariant forall m: nat :: r.first <= m < next ==> !FreeAt(text, r, held, m)
      decreases V4_COUNT - next
    {
      if text(addr.n) !in taken {
        assert LowestFree(text, r, held, next);
        return Picked(text(addr.n));
      }
      addr := NextAddr(addr);
      next := next + 1;
    }
    assert forall m: nat :: !FreeAt(text, r, held, m);
    return NoneLeft;
  }
}
