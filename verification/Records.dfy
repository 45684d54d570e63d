/** The states of a commission record and the reasons it can be held for (packages/db/src/commission-records.ts). */
module Records {

  datatype Status = Accrued | PendingApproval | Approved | Held | Payable | Paid | ClawbackInitiated | Recovered

  datatype HoldReason = CollectionGate | GuaranteeHold | PhaseInvoice | ClawbackHold
}
