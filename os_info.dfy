/** `os`: a closed table of five subcommands. `info` looks its parameter up
    as it is and selects the one query it names; anything else is
    `Invalid input`. What each query reports about the host is outside the
    model. */
module OsInfo {
  import opened Results

  /** The five host queries. */
  datatype Query = EOL | Cpus | Homedir | Username | Architecture

  /** The `subcommands` table. */
  const Subcommands: map<string, Query> := map[
    "--EOL" := EOL,
    "--cpus" := Cpus,
    "--homedir" := Homedir,
    "--username" := Username,
    "--architecture" := Architecture
  ]

  /** The key that selects a query. */
  function Flag(q: Query): string {
    match q
    case EOL => "--EOL"
    case Cpus => "--cpus"
    case Homedir => "--homedir"
    case Username => "--username"
    case Architecture => "--architecture"
  }

  /** `info(param)`: the query registered under exactly `param`, or
      `Invalid input` when there is none. */
  function Info(param: string): (r: Result<Query>)
    ensures r.Failure? <==> param !in Subcommands
    ensures r.Failure? ==> r.error == InvalidInput
  {
    if param in Subcommands then Success(Subcommands[param]) else Failure(InvalidInput)
  }

  /** `info` accepts exactly the five keys. */
  lemma InfoAccepts(param: string)
    ensures Info(param).Success? <==>
      param in {"--EOL", "--cpus", "--homedir", "--username", "--architecture"}
  {
  }

  /** Each key selects its own query, and every query has its key. */
  lemma InfoFlag(q: Query)
    ensures Info(Flag(q)) == Success(q)
  {
  }

  /** The selection is exact: an accepted parameter is the key of the query
      it selects, so different parameters never select the same query. */
  lemma InfoExact(param: string)
    requires Info(param).Success?
    ensures Flag(Info(param).value) == param
  {
  }

  /** Lookup is case-sensitive and does not trim. */
  lemma InfoNoFolding()
    ensures Info(" --EOL").Failure? && Info("--eol").Failure? && Info("--EOL ").Failure?
  {
  }
}
