/** The claims made on each row of a table, oldest first: a history variable of both claim protocols. */
module ClaimLog {
  datatype LogEntry = LogEntry(token: int, worker: nat)

  function LogClaims(log: seq<seq<LogEntry>>, ids: seq<nat>, e: LogEntry): seq<seq<LogEntry>> {
    seq(|log|, i requires 0 <= i < |log| => if i in ids then log[i] + [e] else log[i])
  }

  ghost predicate Increasing(l: seq<LogEntry>) {
    forall i, j :: 0 <= i < j < |l| ==> l[i].token < l[j].token
  }

  function Last(l: seq<LogEntry>): LogEntry
    requires l != []
  {
    l[|l| - 1]
  }

  /** Tokens in the order of the database clock, repetitions allowed. */
  ghost predicate Ordered(l: seq<LogEntry>) {
    forall i, j :: 0 <= i < j < |l| ==> l[i].token <= l[j].token
  }

  lemma TokensAtMostLast(l: seq<LogEntry>, e: LogEntry)
    requires Ordered(l) && e in l
    ensures e.token <= Last(l).token
    ensures Increasing(l) && e.token == Last(l).token ==> e == Last(l)
  {
  }

  lemma IncreasingAppend(l: seq<LogEntry>, e: LogEntry)
    requires Increasing(l) && (l != [] ==> Last(l).token < e.token)
    ensures Increasing(l + [e])
  {
  }
}
