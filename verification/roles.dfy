/** The roles of users. */
module Roles {
  datatype Role =
    | PlatformSuperAdmin | PlatformOwner | ExecutiveSuperAdmin | TechnicalAdmin | OperationsAdmin
    | OrganizationOnboardingAdmin | ProviderAdmin | FinanceBillingAdmin | BillingAdmin | LegalAdmin | AssignmentAdmin
    | AssetAdmin | AssetIntelligenceAdmin | ComplianceAdmin | ComplianceAuditAdmin | RegulatoryAdmin | SecurityAdmin
    | InvestigationAdmin | ReleaseOperationsAdmin | BackupRecoveryAdmin | SupportAdmin | SuperAdmin | OrgAdmin
    | DispatchOfficer | Provider | PendingProvider | Citizen

  /** The roles that count as super administrators of the platform. */
  predicate IsSuper(role: Role) {
    role == SuperAdmin || role == PlatformSuperAdmin
  }

  /** The ten roles that only governance administration hands out. */
  predicate IsGovernance(role: Role) {
    || role == PlatformOwner || role == ExecutiveSuperAdmin || role == TechnicalAdmin || role == BillingAdmin
    || role == LegalAdmin || role == AssignmentAdmin || role == AssetAdmin || role == ComplianceAdmin
    || role == RegulatoryAdmin || role == SupportAdmin
  }
}
