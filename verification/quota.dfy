/**
 * The quota collaborator as the upload code sees it. Its rules (tiers, the formula
 * behind `can_upload?`, how total usage is summed) are not part of this model: a
 * `QuotaView` is whatever `QuotaService.new(user)` and `User#total_storage_bytes`
 * report at one moment.
 */
module Quota {

  /** `policy.max_file_size` and `policy.max_total_storage`, in bytes. */
  datatype Policy = Policy(maxFileSize: nat, maxTotalStorage: nat)

  /** The hash `current_usage` returns; only copied into error replies. */
  datatype Usage = Usage(storageUsed: nat, storageLimit: nat, tier: string, percentageUsed: real)

  /**
   * One reading of the quota service: the resolved policy, the `can_upload?(bytes)`
   * predicate (left uninterpreted), the usage report and the user's stored total.
   */
  datatype QuotaView = QuotaView(policy: Policy, canUpload: nat -> bool, usage: Usage, totalStorageBytes: nat)
}
