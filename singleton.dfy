// The singleton-tier membership of include/pg/language_practice/singleton.hpp.
//
// Each tier class (`FreeTier`, `BasicMember`, `PremiumMember`) has one
// instance, kept in a function-local static and handed out by `instance()`;
// `upgrade()` returns the next tier's instance. The three statics are the
// fields of one `Tiers` object that every member and every tier reads. The
// source creates each instance on the first call of its `instance()`; here
// all three exist from the start, which no member can tell apart.

module Singleton {

  /** Which tier class an instance belongs to. */
  datatype Kind = FreeTier | BasicMember | PremiumMember

  /** `downloads_per_day()` of each tier. */
  function DownloadsPerDay(k: Kind): (n: int)
    ensures 1 <= n <= 100
    ensures k == PremiumMember <==> n == 100
  {
    match k
    case FreeTier => 1
    case BasicMember => 5
    case PremiumMember => 100
  }

  /** The tier each `upgrade()` returns the instance of. */
  function NextKind(k: Kind): (n: Kind)
    ensures n == k <==> k == PremiumMember
    ensures DownloadsPerDay(n) >= DownloadsPerDay(k)
  {
    match k
    case FreeTier => BasicMember
    case BasicMember => PremiumMember
    case PremiumMember => PremiumMember
  }

  /** `tier_name()` of each tier. */
  function TierName(k: Kind): string {
    match k
    case FreeTier => "Free"
    case BasicMember => "Basic"
    case PremiumMember => "Premium"
  }

  /** A tier instance: immutable once made. */
  class Membership {
    const kind: Kind

    constructor (k: Kind)
      ensures kind == k
    {
      kind := k;
    }
  }

  /** The three `static` instances. */
  class Tiers {
    const free: Membership
    const basic: Membership
    const premium: Membership

    /** Three distinct instances, one of each tier. */
    ghost predicate Valid()
      reads this, free, basic, premium
    {
      free.kind == FreeTier && basic.kind == BasicMember && premium.kind == PremiumMember
    }

    constructor ()
      ensures Valid()
    {
      free := new Membership(FreeTier);
      basic := new Membership(BasicMember);
      premium := new Membership(PremiumMember);
    }

    /** `FreeTier::instance()`, `BasicMember::instance()` and `PremiumMember::instance()`. */
    function Instance(k: Kind): (m: Membership)
      reads this, free, basic, premium
      requires Valid()
      ensures m.kind == k
    {
      match k
      case FreeTier => free
      case BasicMember => basic
      case PremiumMember => premium
    }

    /** `upgrade()` of the tier `m`: the next tier's one instance. */
    function Upgrade(m: Membership): (next: Membership)
      reads this, free, basic, premium
      requires Valid()
      ensures next.kind == NextKind(m.kind) && next == Instance(NextKind(m.kind))
      ensures m == premium ==> next == m
    {
      match m.kind
      case FreeTier => basic
      case BasicMember => premium
      case PremiumMember => premium
    }
  }

  class Member {
    const tiers: Tiers
    var role: Membership
    const name: string
    var downloaded: int

    /** The role is always one of the shared instances, and the count stays within its limit. */
    ghost predicate Valid()
      reads this, tiers, tiers.free, tiers.basic, tiers.premium, role
    {
      tiers.Valid() && role == tiers.Instance(role.kind) && 0 <= downloaded <= DownloadsPerDay(role.kind)
    }

    /** A new member holds the shared Free instance and no downloads. */
    constructor (tiers: Tiers, n: string)
      requires tiers.Valid()
      ensures Valid() && this.tiers == tiers && name == n && role == tiers.free && downloaded == 0
    {
      this.tiers := tiers;
      role := tiers.free;
      name := n;
      downloaded := 0;
    }

    /** `can_download`: the count is below the tier's limit. */
    predicate CanDownload()
      reads this, role
    {
      downloaded < DownloadsPerDay(role.kind)
    }

    /** `download`: refused, changing nothing, when `can_download` fails; otherwise counts one download. */
    method Download() returns (ok: bool)
      requires Valid()
      modifies this
      ensures Valid() && ok == old(CanDownload()) && role == old(role)
      ensures downloaded == if ok then old(downloaded) + 1 else old(downloaded)
    {
      if !CanDownload() {
        return false;
      }
      downloaded := downloaded + 1;
      return true;
    }

    /** `upgrade`: the role becomes the next tier's shared instance; the count is kept. */
    method Upgrade()
      requires Valid()
      modifies this
      ensures Valid() && role == tiers.Instance(NextKind(old(role.kind))) && downloaded == old(downloaded)
    {
      role := tiers.Upgrade(role);
    }
  }

  /**
   * `test_signleton`: Alice starts on the Free instance and two upgrades take
   * Alice through the Basic instance to the Premium one. The second member,
   * who also upgrades twice and ends on that same Premium instance, is an
   * addition here: the source's test has Alice only.
   */
  method TestSingleton(tiers: Tiers) returns (first: Membership, second: Membership, third: Membership, other: Membership)
    requires tiers.Valid()
    ensures first == tiers.free && second == tiers.basic && third == tiers.premium
    ensures other == third
  {
    var alice := new Member(tiers, "Alice");
    first := alice.role;
    alice.Upgrade();
    second := alice.role;
    alice.Upgrade();
    third := alice.role;
    var bob := new Member(tiers, "Bob");
    bob.Upgrade();
    bob.Upgrade();
    other := bob.role;
  }

  /** Two upgrades take any tier to Premium, and Premium's upgrade is Premium itself. */
  lemma UpgradeChain(tiers: Tiers, m: Membership)
    requires tiers.Valid() && m == tiers.Instance(m.kind)
    ensures tiers.Upgrade(tiers.Upgrade(m)) == tiers.premium
    ensures tiers.Upgrade(tiers.premium) == tiers.premium
  {
  }
}
