/** The records the feed passes around (src/lib/types.ts). A commit's
    `committedAt` stays the upstream ISO-8601 text; day keys are day numbers
    (days since 1970-01-01), whose order is the order of their `YYYY-MM-DD`
    text for four-digit years. */
module Types {

  datatype CommitItem = CommitItem(
    sha: string,
    repo: string,
    htmlUrl: string,
    committedAt: string,
    messageSubject: string,
    messageBody: string)

  datatype DayRepoCount = DayRepoCount(repo: string, count: nat)

  datatype DailySummary = DailySummary(dayKey: int, count: nat, topRepos: seq<DayRepoCount>)
}
