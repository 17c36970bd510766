/**
 * `run`: split the query, load the configuration, select the runners and run them, or report
 * that nothing matched.
 */
module Invocation {
  import opened Wrappers
  import opened Toml
  import opened Errors
  import opened Runners
  import opened Collecting
  import opened Building
  import opened Parsing
  import opened Selection
  import opened Supervisor

  /** What `run` leaves behind: its reported events, the trees it terminated, and how it ended. */
  datatype Report = Report(log: seq<Event>, terms: seq<Termination>, end: End)

  /**
   * `run` over a loaded `Awesome.toml`. Finding and reading the file and parsing its text are not
   * part of this model: `loaded` is either the root table with its group order or the error they
   * raised.
   */
  method Run(query: string, loaded: Result<(map<string, Value>, seq<string>), Error>, de: Deserializer,
             sr: ShouldRunOracle, ex: ExecOracle, rounds: seq<Round>) returns (report: Report)
    requires loaded.Ok? ==> IsGroupOrder(loaded.value.0, loaded.value.1)
    // a configuration that cannot be loaded or parsed ends the run before anything is executed
    ensures loaded.Err? ==> report == Report([], [], Failed(loaded.error))
    ensures loaded.Ok? && Parsed(loaded.value.0, loaded.value.1, de).Err? ==>
              report == Report([], [], Failed(Parsed(loaded.value.0, loaded.value.1, de).error))
    // no match: a notice, nothing executed, and a normal end
    ensures loaded.Ok? && Parsed(loaded.value.0, loaded.value.1, de).Ok?
            && Select(Parsed(loaded.value.0, loaded.value.1, de).value, query).None? ==>
              report == Report([NoRunnersFound(query)], [], Finished)
    // a match: `run_runners` on the selected runners
    ensures loaded.Ok? && Parsed(loaded.value.0, loaded.value.1, de).Ok?
            && Select(Parsed(loaded.value.0, loaded.value.1, de).value, query).Some? ==>
              var rs := Select(Parsed(loaded.value.0, loaded.value.1, de).value, query).value;
              report.log == BatchFrom(rs, sr, ex).log && report.end == RunEnd(rs, sr, ex, rounds)
    // ... with no tree terminated unless the batch succeeded and a watch turn asked for it
    ensures loaded.Ok? && Parsed(loaded.value.0, loaded.value.1, de).Ok?
            && Select(Parsed(loaded.value.0, loaded.value.1, de).value, query).Some? ==>
              var b := BatchFrom(Select(Parsed(loaded.value.0, loaded.value.1, de).value, query).value, sr, ex);
              b.failure.Some? || b.tracked == [] || Deciding(b.tracked, rounds, 0).None? ==> report.terms == []
    // ... and otherwise the trees of exactly the children the watch found still running
    ensures loaded.Ok? && Parsed(loaded.value.0, loaded.value.1, de).Ok?
            && Select(Parsed(loaded.value.0, loaded.value.1, de).value, query).Some? ==>
              var b := BatchFrom(Select(Parsed(loaded.value.0, loaded.value.1, de).value, query).value, sr, ex);
              b.failure.None? && b.tracked != [] && Deciding(b.tracked, rounds, 0).Some? ==>
                Terminated(report.terms, WatchFrom(b.tracked, rounds).1, b.tracked,
                           rounds[Deciding(b.tracked, rounds, 0).value].env)
  {
    var (part1, part2) := SplitQuery(query);
    if loaded.Err? {
      return Report([], [], Failed(loaded.error));
    }
    var config := ParseAwesomeToml(loaded.value.0, loaded.value.1, de);
    if config.Err? {
      return Report([], [], Failed(config.error));
    }
    var runners: Option<seq<Runner>>;
    if part2.Some? {
      var r := GetGroupedRunner(config.value, part1, part2.value);
      runners := if r.Some? then Some([r.value]) else None;
    } else {
      var g := GetRunners(config.value, part1);
      if g.Some? {
        runners := g;
      } else {
        var s := GetSoloRunner(config.value, part1);
        runners := if s.Some? then Some([s.value]) else None;
      }
    }
    assert runners == Select(config.value, query);
    if runners.Some? {
      var log, terms, end := RunRunners(runners.value, sr, ex, rounds);
      report := Report(log, terms, end);
    } else {
      report := Report([NoRunnersFound(query)], [], Finished);
    }
  }

  /** No runner is executed unless the query selects it: every executed runner is one of the selected. */
  lemma ExecutedAreSelected(rs: seq<Runner>, sr: ShouldRunOracle, ex: ExecOracle, name: string)
    ensures Executed(name) in BatchFrom(rs, sr, ex).log ==> exists i :: 0 <= i < |rs| && rs[i].name == name && sr(rs[i]) == Ok(Yes)
  {
    BatchSpec(rs, sr, ex);
    var log := BatchFrom(rs, sr, ex).log;
    if Executed(name) in log {
      var k :| 0 <= k < |log| && log[k] == Executed(name);
      assert log[k] == Decision(rs[k], sr);
    }
  }
}
