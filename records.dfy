/** The records the profile page reads from the query service (script.js:94-106). */
module Records {

  datatype Option<T> = None | Some(value: T)

  /** One element of `user.xps`: a progress path and the XP it earned. */
  datatype XpEntry = XpEntry(path: string, amount: int)

  /** One element of `user.transactions`; `kind` is the transaction's `type` field.
      `createdAt` is kept as the timestamp text the service returns. */
  datatype Transaction = Transaction(createdAt: string, amount: int, kind: string)

  /** The part of the fetched user that the page stores or derives metrics from. */
  datatype UserProfile = UserProfile(login: string, xps: seq<XpEntry>, transactions: seq<Transaction>)
}
