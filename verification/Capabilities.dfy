/** `capabilities.py`, the resolution in `core/authorization.py`, and
`administration.overrides_after`: what an account may do, and what a save of
its permission toggles stores. */
module Capabilities {
  import opened Outcomes

  datatype Role = Specialist | DepartmentHead | TechnicalAdministrator | Reader

  datatype Capability =
    | ViewDepartmentManagement
    | AssignWork
    | ReviewWorkVictories
    | DeleteMatters
    | ManageReferenceData
    | ManageAccounts
    | DelegateAdministration

  datatype Override = Allow | Deny

  type Overrides = map<Capability, Override>

  /** Business capabilities first, then the two administrative ones. */
  const ALL_CAPABILITIES: seq<Capability> := [
    ViewDepartmentManagement, AssignWork, ReviewWorkVictories, DeleteMatters, ManageReferenceData,
    ManageAccounts, DelegateAdministration]

  predicate IsAdministrative(c: Capability) {
    c == ManageAccounts || c == DelegateAdministration
  }

  /** `DEFAULT_HOLDERS`: who holds a capability when nobody has said otherwise. */
  predicate RoleDefault(role: Role, c: Capability) {
    match c
    case AssignWork => role == Specialist || role == DepartmentHead
    case ManageAccounts => false
    case DelegateAdministration => false
    case _ => role == DepartmentHead
  }

  /** `GRANTABLE_TO_ROLES`: to whom an individual grant means anything. */
  predicate MayBeGrantedTo(role: Role, c: Capability) {
    match c
    case ViewDepartmentManagement => role != TechnicalAdministrator
    case AssignWork => role == Specialist || role == DepartmentHead
    case ReviewWorkVictories => role == Specialist || role == DepartmentHead
    case DeleteMatters => role == Specialist || role == DepartmentHead
    case ManageReferenceData => role != Reader
    case ManageAccounts => true
    case DelegateAdministration => true
  }

  predicate RequiresBusinessWrite(c: Capability) {
    c == AssignWork || c == ReviewWorkVictories || c == DeleteMatters
  }

  predicate WritesBusiness(role: Role) { role == Specialist || role == DepartmentHead }

  function Prerequisite(c: Capability): Option<Capability> {
    if c == DelegateAdministration then Some(ManageAccounts) else None
  }

  /** `resolve_capability`, apart from the prerequisite. */
  predicate HeldAlone(role: Role, overrides: Overrides, c: Capability) {
    && (RequiresBusinessWrite(c) ==> WritesBusiness(role))
    && (if c in overrides then overrides[c] == Allow && MayBeGrantedTo(role, c) else RoleDefault(role, c))
  }

  /** `resolve_capability` for a role and a set of overrides. */
  predicate Resolve(role: Role, overrides: Overrides, c: Capability) {
    && HeldAlone(role, overrides, c)
    && (Prerequisite(c).Some? ==> HeldAlone(role, overrides, Prerequisite(c).value))
  }

  /** `account_capabilities`: what the account grants while it is active. */
  function Held(role: Role, overrides: Overrides): (held: set<Capability>)
    ensures forall c :: c in held <==> Resolve(role, overrides, c)
  {
    set c: Capability | Resolve(role, overrides, c)
  }

  /** Administration is never a default: without an allow override nobody holds any of it. */
  lemma AdministrationNeedsAllow(role: Role, overrides: Overrides, c: Capability)
    requires IsAdministrative(c) && Resolve(role, overrides, c)
    ensures ManageAccounts in overrides && overrides[ManageAccounts] == Allow
    ensures c in overrides && overrides[c] == Allow
  {
  }

  // -- what a save stores ------------------------------------------------------------------

  /** The administrator moved this toggle away from what the page showed. */
  predicate Moved(wanted: map<Capability, bool>, shown: set<Capability>, c: Capability) {
    c in wanted && wanted[c] != (c in shown)
  }

  /** What becomes of one capability's override, prerequisites aside. */
  function Settled(role: Role, wanted: map<Capability, bool>, previous: Overrides, shown: set<Capability>, c: Capability)
    : Option<Override>
  {
    if Moved(wanted, shown, c) then
      if wanted[c] == RoleDefault(role, c) then None else Some(if wanted[c] then Allow else Deny)
    else if c !in previous || (previous[c] == Allow) == RoleDefault(role, c) then None
    else if previous[c] == Allow && !MayBeGrantedTo(role, c) then None
    else Some(previous[c])
  }

  function SettledAll(role: Role, wanted: map<Capability, bool>, previous: Overrides, shown: set<Capability>): Overrides {
    map c: Capability | Settled(role, wanted, previous, shown, c).Some? :: Settled(role, wanted, previous, shown, c).value
  }

  /** An allow that grants nothing as things stand, for want of what it builds on. */
  predicate Dormant(role: Role, overrides: Overrides, c: Capability) {
    && c in overrides && overrides[c] == Allow
    && Prerequisite(c).Some? && !Resolve(role, overrides, Prerequisite(c).value)
  }

  function OverridesAfter(role: Role, wanted: map<Capability, bool>, previous: Overrides, shown: set<Capability>): Overrides {
    var settled := SettledAll(role, wanted, previous, shown);
    map c | c in settled && !Dormant(role, settled, c) :: settled[c]
  }

  /** The capabilities of `caps` settled one after another, as the loop does. */
  function SettledAmong(caps: seq<Capability>, role: Role, wanted: map<Capability, bool>, previous: Overrides,
                        shown: set<Capability>): Overrides
  {
    if caps == [] then map[]
    else
      var before, c := SettledAmong(caps[..|caps| - 1], role, wanted, previous, shown), caps[|caps| - 1];
      match Settled(role, wanted, previous, shown, c)
      case None => before - {c}
      case Some(v) => before[c := v]
  }

  lemma {:induction false} SettledAmongHolds(caps: seq<Capability>, role: Role, wanted: map<Capability, bool>,
                                             previous: Overrides, shown: set<Capability>)
    ensures var r := SettledAmong(caps, role, wanted, previous, shown);
            forall c :: c in r <==> c in caps && Settled(role, wanted, previous, shown, c).Some?
    ensures var r := SettledAmong(caps, role, wanted, previous, shown);
            forall c :: c in r ==> Some(r[c]) == Settled(role, wanted, previous, shown, c)
  {
    if caps != [] {
      SettledAmongHolds(caps[..|caps| - 1], role, wanted, previous, shown);
    }
  }

  /** The loop over the capabilities. */
  method SettleEach(caps: seq<Capability>, role: Role, wanted: map<Capability, bool>, previous: Overrides,
                    shown: set<Capability>) returns (result: Overrides, moved: set<Capability>)
    requires forall i, j :: 0 <= i < j < |caps| ==> caps[i] != caps[j]
    ensures result == SettledAmong(caps, role, wanted, previous, shown)
    ensures forall c :: c in moved <==> c in caps && Moved(wanted, shown, c)
  {
    result, moved := map[], {};
    for k := 0 to |caps|
      invariant result == SettledAmong(caps[..k], role, wanted, previous, shown)
      invariant forall c :: c in moved <==> c in caps[..k] && Moved(wanted, shown, c)
    {
      var c := caps[k];
      SettledAmongHolds(caps[..k], role, wanted, previous, shown);
      assert caps[..k + 1] == caps[..k] + [c];
      assert caps[..k + 1][..k] == caps[..k];
      assert result - {c} == result;
      var default := RoleDefault(role, c);
      if Moved(wanted, shown, c) {
        moved := moved + {c};
        if wanted[c] != default { result := result[c := if wanted[c] then Allow else Deny]; }
      } else if c in previous && (previous[c] == Allow) != default
                && !(previous[c] == Allow && !MayBeGrantedTo(role, c)) {
        result := result[c := previous[c]];
      }
    }
    assert caps[..|caps|] == caps;
  }

  /** `overrides_after`: what is to be stored, and which toggles differ from the page as it was shown. */
  method ComputeOverridesAfter(role: Role, wanted: map<Capability, bool>, previous: Overrides, shown: set<Capability>)
    returns (result: Overrides, moved: set<Capability>)
    ensures result == OverridesAfter(role, wanted, previous, shown)
    ensures forall c :: c in moved <==> c in wanted && wanted[c] != (c in shown)
  {
    AllListed();
    AllDiffer();
    hide SettledAmong, Settled, SettledAll, Dormant;
    result, moved := SettleEach(ALL_CAPABILITIES, role, wanted, previous, shown);
    SettledEverywhere(role, wanted, previous, shown);
    result := DropDormant(role, result);
  }

  lemma AllDiffer()
    ensures forall i, j :: 0 <= i < j < |ALL_CAPABILITIES| ==> ALL_CAPABILITIES[i] != ALL_CAPABILITIES[j]
  {
  }

  /** Settling the listed ones settles them all. */
  lemma SettledEverywhere(role: Role, wanted: map<Capability, bool>, previous: Overrides, shown: set<Capability>)
    ensures SettledAmong(ALL_CAPABILITIES, role, wanted, previous, shown) == SettledAll(role, wanted, previous, shown)
  {
    AllListed();
    SettledAmongHolds(ALL_CAPABILITIES, role, wanted, previous, shown);
    hide SettledAmong, Settled;
  }

  /** The loop over the prerequisites, of which there is one. */
  function DropDormant(role: Role, result: Overrides): (r: Overrides)
    ensures r == map c | c in result && !Dormant(role, result, c) :: result[c]
  {
    if Dormant(role, result, DelegateAdministration) then result - {DelegateAdministration} else result
  }

  lemma AllListed()
    ensures forall c: Capability :: c in ALL_CAPABILITIES
  {
    forall c: Capability ensures c in ALL_CAPABILITIES {
      match c
      case ViewDepartmentManagement => assert c == ALL_CAPABILITIES[0];
      case AssignWork => assert c == ALL_CAPABILITIES[1];
      case ReviewWorkVictories => assert c == ALL_CAPABILITIES[2];
      case DeleteMatters => assert c == ALL_CAPABILITIES[3];
      case ManageReferenceData => assert c == ALL_CAPABILITIES[4];
      case ManageAccounts => assert c == ALL_CAPABILITIES[5];
      case DelegateAdministration => assert c == ALL_CAPABILITIES[6];
    }
  }

  // -- the stored form is a normal form ------------------------------------------------------------

  /** No override repeats the role's default, and no allow lacks its prerequisite. */
  ghost predicate NormalForm(role: Role, overrides: Overrides) {
    && (forall c :: c in overrides ==> (overrides[c] == Allow) != RoleDefault(role, c))
    && (forall c :: c in overrides ==> !Dormant(role, overrides, c))
  }

  lemma SaveStoresNormalForm(role: Role, wanted: map<Capability, bool>, previous: Overrides, shown: set<Capability>)
    ensures NormalForm(role, OverridesAfter(role, wanted, previous, shown))
  {
    var settled := SettledAll(role, wanted, previous, shown);
    var after := OverridesAfter(role, wanted, previous, shown);
    assert Resolve(role, settled, ManageAccounts) <==> Resolve(role, after, ManageAccounts);
  }

  /** What is stored of one capability: what was settled for it, unless what it builds on is not held. */
  lemma StoredAt(role: Role, wanted: map<Capability, bool>, previous: Overrides, shown: set<Capability>, c: Capability)
    ensures var settled, after := Settled(role, wanted, previous, shown, c), OverridesAfter(role, wanted, previous, shown);
            && (c in after <==>
                  && settled.Some?
                  && (c == DelegateAdministration && settled.value == Allow ==> Resolve(role, after, ManageAccounts)))
            && (c in after ==> after[c] == settled.value)
  {
    hide Settled, RoleDefault, MayBeGrantedTo;
    var settled := SettledAll(role, wanted, previous, shown);
    var after := OverridesAfter(role, wanted, previous, shown);
    assert Resolve(role, settled, ManageAccounts) <==> Resolve(role, after, ManageAccounts);
  }

  /** A toggle the administrator moved ends as they wished: off always, on when the role may hold it
      and what it needs is held. */
  lemma MovedTogglesObey(role: Role, wanted: map<Capability, bool>, previous: Overrides, shown: set<Capability>, c: Capability)
    requires c in wanted && wanted[c] != (c in shown)
    ensures var after := OverridesAfter(role, wanted, previous, shown);
            Resolve(role, after, c) <==>
              && wanted[c] && MayBeGrantedTo(role, c)
              && (c == DelegateAdministration ==> Resolve(role, after, ManageAccounts))
  {
    StoredAt(role, wanted, previous, shown, c);
    hide OverridesAfter;
  }

  /** A toggle left alone without an override of its own follows the new role. */
  lemma UntouchedFollowsRole(role: Role, wanted: map<Capability, bool>, previous: Overrides, shown: set<Capability>, c: Capability)
    requires (c in wanted ==> wanted[c] == (c in shown)) && c !in previous
    ensures var after := OverridesAfter(role, wanted, previous, shown);
            c !in after && (Resolve(role, after, c) <==> RoleDefault(role, c))
  {
  }

  /** A toggle left alone with an override of its own keeps it while it makes a difference: a denial denies on,
      and a grant grants on under every role that may hold it. */
  lemma UntouchedOverrideStands(role: Role, wanted: map<Capability, bool>, previous: Overrides, shown: set<Capability>, c: Capability)
    requires (c in wanted ==> wanted[c] == (c in shown)) && c in previous
    ensures var after := OverridesAfter(role, wanted, previous, shown);
            && (c in after ==> after[c] == previous[c])
            && (previous[c] == Deny ==> !Resolve(role, after, c) && (c in after <==> RoleDefault(role, c)))
            && (previous[c] == Allow ==> (Resolve(role, after, c) <==>
                  && MayBeGrantedTo(role, c)
                  && (c == DelegateAdministration ==> Resolve(role, after, ManageAccounts))))
  {
    StoredAt(role, wanted, previous, shown, c);
    hide OverridesAfter;
  }

  /** What is stored is exactly the difference between what the account holds and what its role holds. */
  lemma StoredIsTheDifference(role: Role, wanted: map<Capability, bool>, previous: Overrides, shown: set<Capability>, c: Capability)
    requires GrantsOnlyGrantable(role, wanted, shown)
    ensures var after := OverridesAfter(role, wanted, previous, shown);
            && (c in after <==> Resolve(role, after, c) != RoleDefault(role, c))
            && (c in after ==> (after[c] == Allow <==> Resolve(role, after, c)))
  {
    SaveStoresNormalForm(role, wanted, previous, shown);
    StoredAllowsIff(role, wanted, previous, shown);
    hide OverridesAfter;
  }

  /** The page as it shows an account: every toggle at what the account holds. */
  function AsShown(role: Role, overrides: Overrides): map<Capability, bool> {
    map c: Capability | true :: Resolve(role, overrides, c)
  }

  ghost predicate AllowsOnlyGrantable(role: Role, overrides: Overrides) {
    forall c :: c in overrides && overrides[c] == Allow ==> MayBeGrantedTo(role, c)
  }

  lemma Resettled(role: Role, overrides: Overrides, c: Capability)
    requires NormalForm(role, overrides)
    ensures Settled(role, AsShown(role, overrides), overrides, Held(role, overrides), c)
         == if c in overrides && !(overrides[c] == Allow && !MayBeGrantedTo(role, c)) then Some(overrides[c]) else None
  {
  }

  lemma StableIff(role: Role, overrides: Overrides)
    requires NormalForm(role, overrides)
    ensures OverridesAfter(role, AsShown(role, overrides), overrides, Held(role, overrides)) == overrides
       <==> AllowsOnlyGrantable(role, overrides)
  {
    var settled := SettledAll(role, AsShown(role, overrides), overrides, Held(role, overrides));
    forall c: Capability
      ensures c in settled <==> c in overrides && !(overrides[c] == Allow && !MayBeGrantedTo(role, c))
      ensures c in settled ==> settled[c] == overrides[c]
    {
      Resettled(role, overrides, c);
    }
    if AllowsOnlyGrantable(role, overrides) {
      assert settled == overrides;
    }
  }

  /** The save turned no toggle on that the role may not hold. */
  ghost predicate GrantsOnlyGrantable(role: Role, wanted: map<Capability, bool>, shown: set<Capability>) {
    forall c: Capability :: c in wanted && wanted[c] && c !in shown ==> MayBeGrantedTo(role, c)
  }

  lemma StoredAllowsIff(role: Role, wanted: map<Capability, bool>, previous: Overrides, shown: set<Capability>)
    ensures AllowsOnlyGrantable(role, OverridesAfter(role, wanted, previous, shown)) <==> GrantsOnlyGrantable(role, wanted, shown)
  {
    var after := OverridesAfter(role, wanted, previous, shown);
    if !GrantsOnlyGrantable(role, wanted, shown) {
      var c :| c in wanted && wanted[c] && c !in shown && !MayBeGrantedTo(role, c);
      assert c in after && after[c] == Allow;
    }
  }

  /** Saving the page again, untouched, changes nothing - exactly when the first save granted nothing
      the role may not hold, which `update_account` refuses. */
  lemma SavingAgainIff(role: Role, wanted: map<Capability, bool>, previous: Overrides, shown: set<Capability>)
    ensures var after := OverridesAfter(role, wanted, previous, shown);
            && (OverridesAfter(role, AsShown(role, after), after, Held(role, after)) == after
                <==> GrantsOnlyGrantable(role, wanted, shown))
  {
    SaveStoresNormalForm(role, wanted, previous, shown);
    StableIff(role, OverridesAfter(role, wanted, previous, shown));
    StoredAllowsIff(role, wanted, previous, shown);
  }
}
