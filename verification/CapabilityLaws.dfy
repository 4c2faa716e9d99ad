/** Who holds what, said of the role and the account's own overrides. */
module CapabilityLaws {
  import opened Capabilities

  predicate IsLawyer(role: Role) { role == Specialist || role == DepartmentHead }

  /** Without overrides the head of the department holds every business capability, a specialist may assign
      work, and nobody else holds anything. */
  lemma DefaultsAre(role: Role, c: Capability)
    ensures Resolve(role, map[], c) <==>
              c !in {ManageAccounts, DelegateAdministration}
              && (role == DepartmentHead || (role == Specialist && c == AssignWork))
    ensures Resolve(role, map[], c) <==> RoleDefault(role, c)
  {
  }

  /** Granted everything, a lawyer holds everything, a reader the management view and a technical administrator
      the reference data, and each of them administration. */
  lemma GrantsReach(role: Role, overrides: Overrides, c: Capability)
    requires forall k :: k in overrides && overrides[k] == Allow
    ensures Resolve(role, overrides, c) <==>
              || IsLawyer(role)
              || c in {ManageAccounts, DelegateAdministration}
              || (role == Reader && c == ViewDepartmentManagement)
              || (role == TechnicalAdministrator && c == ManageReferenceData)
  {
  }

  /** An account's own override decides over its role: a denial always, a grant where the role may be given it;
      and there is no power to hand out administration without the power to administer. */
  lemma OverrideDecides(role: Role, overrides: Overrides, c: Capability)
    ensures c in overrides && overrides[c] == Deny ==> !Resolve(role, overrides, c)
    ensures c in overrides && overrides[c] == Allow ==>
              (Resolve(role, overrides, c) <==>
                 MayBeGrantedTo(role, c) && (c == DelegateAdministration ==> Resolve(role, overrides, ManageAccounts)))
    ensures c !in overrides ==> (Resolve(role, overrides, c) <==> Resolve(role, map[], c))
  {
  }

  /** Nothing makes a reader or a technical administrator an author. */
  lemma OnlyLawyersWrite(role: Role, overrides: Overrides, c: Capability)
    requires c in {AssignWork, ReviewWorkVictories, DeleteMatters} && Resolve(role, overrides, c)
    ensures IsLawyer(role)
  {
  }

  /** Administration grants no business access and a role grants no administration: what an account may do with
      the work never reads an administrative override, and its administration never reads its role. */
  lemma FamiliesAreApart(role: Role, role': Role, overrides: Overrides, others: Overrides, c: Capability)
    ensures c !in {ManageAccounts, DelegateAdministration} && (c in overrides <==> c in others)
            && (c in overrides ==> overrides[c] == others[c])
            ==> (Resolve(role, overrides, c) <==> Resolve(role, others, c))
    ensures c in {ManageAccounts, DelegateAdministration} ==> (Resolve(role, overrides, c) <==> Resolve(role', overrides, c))
  {
  }

  /** A grant more takes nothing away, a denial more gives nothing. */
  lemma OverridesAreMonotone(role: Role, overrides: Overrides, k: Capability, c: Capability)
    ensures Resolve(role, overrides, c) ==> Resolve(role, overrides[k := Allow], c)
    ensures Resolve(role, overrides[k := Deny], c) ==> Resolve(role, overrides, c)
  {
  }
}
