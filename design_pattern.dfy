// The membership state machines of src/language_practice/design_pattern.hpp.
//
// `OldMember` keeps its level in an enum and switches over it in `upgrade`
// and `can_download`. `Member` holds a shared pointer to an immutable tier
// object (`FreeTier`, `BasicMember`, `PremiumMember`) that knows its daily
// limit and which tier it upgrades to. A tier object here is a `Membership`
// whose only field is the constant naming its class: `make_shared` in an
// upgrade is a fresh object, and `shared_from_this` in
// `PremiumMember::upgrade` is the object itself. The console messages are
// left out.

module DesignPattern {

  // ---------------------------------------------------------------------
  // `OldMember`

  /** `OldMember::Membership`. */
  datatype Level = Free | Basic | Premium

  /** The `switch` in `OldMember::upgrade`: one level up, and Premium stays Premium. */
  function NextLevel(m: Level): (n: Level)
    ensures n == m <==> m == Premium
    ensures forall d :: CanDownloadAt(m, d) ==> CanDownloadAt(n, d)
  {
    match m
    case Free => Basic
    case Basic => Premium
    case Premium => Premium
  }

  /** The `switch` in `OldMember::can_download`: fewer than 1 download on Free, fewer than 5 on Basic, always on Premium. */
  predicate CanDownloadAt(m: Level, downloads: int) {
    match m
    case Free => downloads < 1
    case Basic => downloads < 5
    case Premium => true
  }

  /** Every level reaches Premium within two upgrades, and stays there. */
  lemma TwoUpgradesReachPremium(m: Level)
    ensures NextLevel(NextLevel(m)) == Premium && NextLevel(Premium) == Premium
  {
  }

  /** The downloads a level allows before `can_download` turns false; Premium has no bound. */
  function LevelCap(m: Level): (cap: int)
    requires m != Premium
    ensures forall d :: CanDownloadAt(m, d) <==> d < cap
  {
    if m == Free then 1 else 5
  }

  class OldMember {
    var membership: Level
    var currentDownloads: int
    const name: string

    /** The count never goes below zero, and below Premium never passes the level's cap. */
    ghost predicate Valid()
      reads this
    {
      0 <= currentDownloads && (membership != Premium ==> currentDownloads <= LevelCap(membership))
    }

    /** A new member is Free with no downloads. */
    constructor (n: string)
      ensures Valid() && name == n && membership == Free && currentDownloads == 0
    {
      name := n;
      membership := Free;
      currentDownloads := 0;
    }

    /** `upgrade`: one level up; the count is kept. */
    method Upgrade()
      requires Valid()
      modifies this
      ensures Valid() && membership == NextLevel(old(membership)) && currentDownloads == old(currentDownloads)
    {
      match membership
      case Free => membership := Basic;
      case Basic => membership := Premium;
      case Premium =>
    }

    /** `can_download`. */
    predicate CanDownload()
      reads this
    {
      CanDownloadAt(membership, currentDownloads)
    }

    /** `download`: counts one download when `can_download` holds, and otherwise changes nothing. */
    method Download() returns (ok: bool)
      requires Valid()
      modifies this
      ensures Valid() && ok == old(CanDownload()) && membership == old(membership)
      ensures currentDownloads == if ok then old(currentDownloads) + 1 else old(currentDownloads)
    {
      if CanDownload() {
        currentDownloads := currentDownloads + 1;
        ok := true;
      } else {
        ok := false;
      }
    }
  }

  // ---------------------------------------------------------------------
  // The `Membership` hierarchy and `Member`

  /** Which of the three `Membership` subclasses a tier object is. */
  datatype Kind = FreeTier | BasicMember | PremiumMember

  /** `downloads_per_day()` of each subclass. */
  function DownloadsPerDay(k: Kind): (n: int)
    ensures 1 <= n <= 100
    ensures k == PremiumMember <==> n == 100
  {
    match k
    case FreeTier => 1
    case BasicMember => 5
    case PremiumMember => 100
  }

  /** The subclass each `upgrade()` returns an object of. */
  function NextKind(k: Kind): (n: Kind)
    ensures n == k <==> k == PremiumMember
    ensures DownloadsPerDay(n) >= DownloadsPerDay(k)
  {
    match k
    case FreeTier => BasicMember
    case BasicMember => PremiumMember
    case PremiumMember => PremiumMember
  }

  /** `tier_name()` of each subclass. */
  function TierName(k: Kind): string {
    match k
    case FreeTier => "Free"
    case BasicMember => "Basic"
    case PremiumMember => "Premium"
  }

  /** Each subclass has its own tier name. */
  lemma TierNamesDistinct(j: Kind, k: Kind)
    ensures TierName(j) == TierName(k) <==> j == k
  {
    assert TierName(j)[0] == TierName(k)[0] ==> j == k;
  }

  /** A tier object: immutable once made. */
  class Membership {
    const kind: Kind

    constructor (k: Kind)
      ensures kind == k
    {
      kind := k;
    }

    /** `upgrade()`: a new object of the next subclass, or, on Premium, this very object. */
    method Upgrade() returns (next: Membership)
      ensures kind == PremiumMember ==> next == this
      ensures kind != PremiumMember ==> fresh(next)
      ensures next.kind == NextKind(kind)
    {
      match kind
      case FreeTier => next := new Membership(BasicMember);
      case BasicMember => next := new Membership(PremiumMember);
      case PremiumMember => next := this;
    }
  }

  class Member {
    var role: Membership
    const name: string
    var currentDownloads: int

    /** The count never goes below zero nor above the current tier's daily limit. */
    ghost predicate Valid()
      reads this, role
    {
      0 <= currentDownloads <= DownloadsPerDay(role.kind)
    }

    /** A new member holds a fresh Free tier and no downloads. */
    constructor (n: string)
      ensures Valid() && name == n && currentDownloads == 0 && role.kind == FreeTier && fresh(role)
    {
      name := n;
      currentDownloads := 0;
      role := new Membership(FreeTier);
    }

    /** `can_download`: the tier's daily limit exceeds the count. */
    predicate CanDownload()
      reads this, role
    {
      DownloadsPerDay(role.kind) > currentDownloads
    }

    /** `download`: counts one download when `can_download` holds, and otherwise changes nothing. */
    method Download() returns (ok: bool)
      requires Valid()
      modifies this
      ensures Valid() && ok == old(CanDownload()) && role == old(role)
      ensures currentDownloads == if ok then old(currentDownloads) + 1 else old(currentDownloads)
    {
      if CanDownload() {
        currentDownloads := currentDownloads + 1;
        return true;
      }
      return false;
    }

    /** `upgrade`: the role becomes what the tier's `upgrade()` returns; the count is never reset. */
    method Upgrade()
      requires Valid()
      modifies this
      ensures Valid() && role.kind == NextKind(old(role.kind)) && currentDownloads == old(currentDownloads)
      ensures old(role.kind) == PremiumMember ==> role == old(role)
      ensures old(role.kind) != PremiumMember ==> fresh(role)
    {
      role := role.Upgrade();
    }
  }

  /** The `OldMember` level that plays the part of each tier subclass. */
  function LevelOf(k: Kind): Level {
    match k
    case FreeTier => Free
    case BasicMember => Basic
    case PremiumMember => Premium
  }

  /**
   * The two designs agree on Free and Basic, and on Premium below 100
   * downloads; from 100 downloads on, a Premium `Member` is refused where a
   * Premium `OldMember` is not.
   */
  lemma DesignsAgreeBelowHundred(k: Kind, d: int)
    ensures (d < DownloadsPerDay(k)) == CanDownloadAt(LevelOf(k), d) <==> k != PremiumMember || d < 100
  {
  }

  /** Upgrades follow the same path in both designs. */
  lemma UpgradesCorrespond(k: Kind)
    ensures LevelOf(NextKind(k)) == NextLevel(LevelOf(k))
  {
  }
}
