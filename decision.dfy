/** The verdict shared by the policy rules (`policy.Decision`) and the hook pipeline
    (`hook.Result`): both carry the same three fields. */
module Decisions {

  datatype Decision = Decision(allowed: bool, reason: string, warning: string)

  /** `Decision{Allowed: true}`. */
  const Allow: Decision := Decision(true, "", "")

  /** `Decision{Allowed: false, Reason: reason}`. */
  function Deny(reason: string): (d: Decision)
    ensures !d.allowed && d.reason == reason && d.warning == ""
  {
    Decision(false, reason, "")
  }
}
