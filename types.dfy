/** The records of types.ts. Amounts are whole pesos, so they are integers here. */
module Types {

  datatype TxType = Credit | Debit

  datatype TxStatus = Completed | Pending | Failed

  datatype Tier = Elite | Gold | Founder

  datatype Transaction = Transaction(
    id: string,
    amount: int,
    currency: string,
    timestamp: string,
    concept: string,
    kind: TxType,
    status: TxStatus)

  datatype UserWallet = UserWallet(balance: int, currency: string, address: string, tier: Tier)

  /** The screens of the app; PlaidLink and AiConsultant are declared but never entered. */
  datatype AppState = BiometricLock | Dashboard | PlaidLink | AiConsultant
}
