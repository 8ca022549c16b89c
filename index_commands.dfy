/**
 * The `index` commands that do more than forward one call: `switch`, which
 * moves every alias of one index to another, the request body of
 * `reindex`, and `update_mapping`, which pushes settings and mappings index
 * by index.
 *
 * The search cluster is a `Cluster` object: its alias table (index name to
 * the set of alias names on it), the log of requests it has received, and,
 * as inputs fixed when it is made, the requests it answers with an
 * exception and the indices whose mapping update it does not acknowledge.
 */
module IndexCommands {
  import opened Wrappers

  /** A request sent to the cluster. */
  datatype Request =
    | GetAliases                          // the alias table of every index
    | PutAlias(index: string, alias: string)
    | DeleteAlias(index: string, alias: string)
    | CloseIndex(index: string)
    | PutSettings(index: string)
    | OpenIndex(index: string)
    | PutMapping(index: string)

  /** An exception that ends a command. */
  datatype Failure =
    | NotFoundError(index: string)        // the cluster has no such index or alias
    | TransportError(request: Request)    // the cluster answered the request with an error
    | AttributeError                      // Python: an attribute looked up on `None`
    | UnboundLocalError                   // Python: a local variable read before any assignment

  type AliasTable = map<string, set<string>>

  // ---------------------------------------------------------------------
  // switch
  // ---------------------------------------------------------------------

  /**
   * The table once the aliases in `done` have been put on `new` and deleted
   * from `old`: `new` gains them, `old` loses them, nothing else changes.
   */
  function Moved(table: AliasTable, oldIndex: string, newIndex: string, done: set<string>): AliasTable
    requires oldIndex in table && (done == {} || newIndex in table)
  {
    if done == {} then table
    else table[newIndex := table[newIndex] + done][oldIndex := table[oldIndex] - done]
  }

  /**
   * `switch old new` on the alias table, on a cluster that answers every
   * request: an `old` the cluster does not list makes `get(old)` give
   * `None` and the next lookup fail; an `old` without aliases leaves
   * everything as it was; otherwise the first `put_alias` on a missing
   * `new` fails before anything changes. `Cluster.SwitchIndex` also states
   * what a request answered with an exception leaves behind.
   */
  function Switch(table: AliasTable, oldIndex: string, newIndex: string): Result<AliasTable, Failure> {
    if oldIndex !in table then Err(AttributeError)
    else if table[oldIndex] == {} then Ok(table)
    else if newIndex !in table then Err(NotFoundError(newIndex))
    else Ok(Moved(table, oldIndex, newIndex, table[oldIndex]))
  }

  /**
   * On a cluster that answers every request, the switch fails exactly when
   * `old` is unknown, or when it has aliases and `new` is unknown.
   */
  lemma SwitchFails(table: AliasTable, oldIndex: string, newIndex: string)
    ensures Switch(table, oldIndex, newIndex) == Err(AttributeError) <==> oldIndex !in table
    ensures Switch(table, oldIndex, newIndex) == Err(NotFoundError(newIndex)) <==> oldIndex in table && table[oldIndex] != {} && newIndex !in table
    ensures Switch(table, oldIndex, newIndex).Err? ==> Switch(table, oldIndex, newIndex) in {Err(AttributeError), Err(NotFoundError(newIndex))}
  {
  }

  /**
   * Whether the cluster answers every request a switch of `old` onto `new`
   * can send: the listing of the aliases, and the put and the delete of
   * each alias of `old`.
   */
  predicate SwitchUnfaulted(table: AliasTable, oldIndex: string, newIndex: string, faults: set<Request>) {
    GetAliases !in faults &&
    (oldIndex in table ==>
      forall a :: a in table[oldIndex] ==> PutAlias(newIndex, a) !in faults && DeleteAlias(oldIndex, a) !in faults)
  }

  /** The aliases listed in `order`. */
  function Elems(order: seq<string>): (names: set<string>)
    ensures forall a :: a in names <==> a in order
  {
    set a | a in order
  }

  /**
   * After a switch between two distinct indices every alias that was on
   * `old` is on `new`, none is left on `old`, the aliases already on `new`
   * stay, and every other index keeps its aliases.
   */
  lemma SwitchMovesAliases(table: AliasTable, oldIndex: string, newIndex: string)
    requires oldIndex != newIndex && Switch(table, oldIndex, newIndex).Ok?
    ensures var after := Switch(table, oldIndex, newIndex).value;
      after.Keys == table.Keys &&
      (table[oldIndex] != {} ==> after[newIndex] == table[newIndex] + table[oldIndex] && after[oldIndex] == {}) &&
      (forall i :: i in table && i != oldIndex && i != newIndex ==> after[i] == table[i])
  {
  }

  /** An index without aliases is switched without any change. */
  lemma SwitchWithoutAliases(table: AliasTable, oldIndex: string, newIndex: string)
    requires oldIndex in table && table[oldIndex] == {}
    ensures Switch(table, oldIndex, newIndex) == Ok(table)
  {
  }

  /** Switching an index onto itself puts each alias back and then deletes it: the index loses all its aliases. */
  lemma SwitchOntoItself(table: AliasTable, oldIndex: string)
    requires oldIndex in table
    ensures Switch(table, oldIndex, oldIndex).Ok?
    ensures Switch(table, oldIndex, oldIndex).value == table[oldIndex := {}]
  {
    if table[oldIndex] == {} {
      assert table[oldIndex := {}] == table;
    } else {
      assert table[oldIndex] - table[oldIndex] == {};
      assert Moved(table, oldIndex, oldIndex, table[oldIndex]) == table[oldIndex := {}];
    }
  }

  /**
   * Half-way through a switch between two distinct indices, with the
   * aliases in `done` moved, each alias that was on `old` is on exactly
   * one of the two: on `new` if it was moved, on `old` otherwise.
   */
  lemma MovedKeepsEachAlias(table: AliasTable, oldIndex: string, newIndex: string, done: set<string>, a: string)
    requires oldIndex != newIndex && oldIndex in table && newIndex in table && done <= table[oldIndex] && a in table[oldIndex]
    ensures var mid := Moved(table, oldIndex, newIndex, done);
      (a in mid[newIndex] <==> a in done || a in table[newIndex]) && (a in mid[oldIndex] <==> a !in done) &&
      (a in mid[oldIndex] || a in mid[newIndex])
  {
  }

  /** Putting one more alias on `new` and deleting it from `old` moves it like the others. */
  lemma MovedStep(table: AliasTable, oldIndex: string, newIndex: string, done: set<string>, a: string)
    requires oldIndex in table && newIndex in table && done <= table[oldIndex] && a in table[oldIndex] && a !in done
    ensures var mid := Moved(table, oldIndex, newIndex, done);
      var put := mid[newIndex := mid[newIndex] + {a}];
      oldIndex in mid && newIndex in mid && a in put[oldIndex] &&
      put[oldIndex := put[oldIndex] - {a}] == Moved(table, oldIndex, newIndex, done + {a})
  {
    var mid := Moved(table, oldIndex, newIndex, done);
    var put := mid[newIndex := mid[newIndex] + {a}];
    var after := Moved(table, oldIndex, newIndex, done + {a});
    forall k | k in after
      ensures k in put[oldIndex := put[oldIndex] - {a}] && put[oldIndex := put[oldIndex] - {a}][k] == after[k]
    {
      if k == oldIndex {
        assert after[k] == table[oldIndex] - (done + {a});
      } else if k == newIndex {
        assert after[k] == table[newIndex] + (done + {a});
      }
    }
  }

  /** The requests of one more alias moved follow those of the aliases before it. */
  lemma SwitchRequestsStep(before: seq<Request>, oldIndex: string, newIndex: string, order: seq<string>, a: string)
    ensures before + SwitchRequests(oldIndex, newIndex, order) + [PutAlias(newIndex, a), DeleteAlias(oldIndex, a)] ==
            before + SwitchRequests(oldIndex, newIndex, order + [a])
  {
    assert (order + [a])[..|order|] == order;
  }

  /** The requests of a switch that moves the aliases in `order`: for each, the put on `new`, then the delete on `old`. */
  function SwitchRequests(oldIndex: string, newIndex: string, order: seq<string>): (calls: seq<Request>)
    ensures |calls| == 2 * |order|
  {
    if order == [] then []
    else
      SwitchRequests(oldIndex, newIndex, order[..|order| - 1]) +
        [PutAlias(newIndex, order[|order| - 1]), DeleteAlias(oldIndex, order[|order| - 1])]
  }

  /** In a switch, every alias is put on `new` right before it is deleted from `old`. */
  lemma {:induction false} SwitchRequestsPutBeforeDelete(oldIndex: string, newIndex: string, order: seq<string>)
    ensures forall k :: 0 <= k < |order| ==>
      SwitchRequests(oldIndex, newIndex, order)[2 * k] == PutAlias(newIndex, order[k]) &&
      SwitchRequests(oldIndex, newIndex, order)[2 * k + 1] == DeleteAlias(oldIndex, order[k])
    decreases |order|
  {
    if order != [] {
      var init := order[..|order| - 1];
      SwitchRequestsPutBeforeDelete(oldIndex, newIndex, init);
      forall k | 0 <= k < |init|
        ensures init[k] == order[k]
      {
      }
    }
  }

  // ---------------------------------------------------------------------
  // reindex
  // ---------------------------------------------------------------------

  /** A JSON value, as far as request bodies need one. */
  datatype Json = Str(s: string) | Bool(b: bool) | Object(fields: seq<(string, Json)>)

  /** The value of the first field named `key` of an object, if any. */
  function Field(j: Json, key: string): Option<Json>
    decreases j, 0
  {
    if j.Object? then FieldIn(j.fields, key) else None
  }

  function FieldIn(fields: seq<(string, Json)>, key: string): Option<Json>
    decreases fields
  {
    if fields == [] then None
    else if fields[0].0 == key then Some(fields[0].1)
    else FieldIn(fields[1..], key)
  }

  /** The value found by following `path` field by field. */
  function At(j: Json, path: seq<string>): Option<Json>
    decreases |path|
  {
    if path == [] then Some(j)
    else
      match Field(j, path[0])
      case None => None
      case Some(inner) => At(inner, path[1..])
  }

  /** The version type that keeps a destination document whose version is at least the source's. */
  const ExternalGte := "external_gte"

  /** The body and the `wait_for_completion` argument of the `reindex` call. */
  function ReindexCall(source: string, destination: string): (Json, bool) {
    (Object([
       ("source", Object([("index", Str(source))])),
       ("dest", Object([("index", Str(destination)), ("version_type", Str(ExternalGte))]))]),
     false)
  }

  /**
   * `reindex` copies from index `source` into index `destination` with
   * external versioning at least equal, and returns a task at once instead
   * of waiting for the copy to finish.
   */
  lemma ReindexCallReads(source: string, destination: string)
    ensures var (body, wait) := ReindexCall(source, destination);
      At(body, ["source", "index"]) == Some(Str(source)) &&
      At(body, ["dest", "index"]) == Some(Str(destination)) &&
      At(body, ["dest", "version_type"]) == Some(Str(ExternalGte)) &&
      At(body, ["source", "version_type"]).None? &&
      !wait
  {
    var body := ReindexCall(source, destination).0;
    var src := Object([("index", Str(source))]);
    var dest := Object([("index", Str(destination)), ("version_type", Str(ExternalGte))]);
    assert Field(body, "source") == Some(src);
    assert Field(body, "dest") == Some(dest) by {
      assert body.fields[0].0 == "source" && "source"[0] != "dest"[0];
      assert body.fields[1..] == [("dest", dest)];
      assert FieldIn(body.fields[1..], "dest") == Some(dest);
    }
    assert Field(src, "index") == Some(Str(source));
    assert Field(src, "version_type") == None by {
      assert src.fields[0].0 == "index" && "index"[0] != "version_type"[0];
      assert src.fields[1..] == [];
      assert FieldIn(src.fields[1..], "version_type") == None;
    }
    assert Field(dest, "index") == Some(Str(destination));
    assert Field(dest, "version_type") == Some(Str(ExternalGte)) by {
      assert dest.fields[0].0 == "index" && "index"[0] != "version_type"[0];
      assert dest.fields[1..] == [("version_type", Str(ExternalGte))];
      assert FieldIn(dest.fields[1..], "version_type") == Some(Str(ExternalGte));
    }
    assert ["source", "index"][1..] == ["index"] && ["index"][1..] == [];
    assert ["dest", "index"][1..] == ["index"];
    assert ["dest", "version_type"][1..] == ["version_type"] && ["version_type"][1..] == [];
    assert ["source", "version_type"][1..] == ["version_type"];
  }

  // ---------------------------------------------------------------------
  // update_mapping: the calls made for one index
  // ---------------------------------------------------------------------

  /**
   * The calls `update_mapping` makes for one index: with a `settings`
   * section in its mapping file and the `--settings` flag, close, put the
   * settings and open; in every case, then put the mapping.
   */
  function PlannedCalls(index: string, hasSettings: bool, settings: bool): seq<Request> {
    (if hasSettings && settings then [CloseIndex(index), PutSettings(index), OpenIndex(index)] else []) +
      [PutMapping(index)]
  }

  /**
   * Whether `calls` keep to Elasticsearch's rules from an index that is
   * open (`open`) or closed: static index settings can only be updated on a
   * closed index, a closed index takes no mapping update, only an open
   * index can be closed and only a closed one reopened. The result is
   * whether the index is open at the end. The rules are the cluster's, not
   * the command's: they explain why it closes the index around the
   * settings.
   */
  function OpenAfter(open: bool, calls: seq<Request>): Option<bool>
    decreases |calls|
  {
    if calls == [] then Some(open)
    else
      var next :=
        match calls[0]
        case CloseIndex(_) => if open then Some(false) else None
        case PutSettings(_) => if open then None else Some(false)
        case OpenIndex(_) => if open then None else Some(true)
        case PutMapping(_) => if open then Some(true) else None
        case _ => Some(open);
      if next.None? then None else OpenAfter(next.value, calls[1..])
  }

  /**
   * The calls for one index all address that index, end with the mapping,
   * include the settings exactly when both the file and the flag ask for
   * them, and keep to the cluster's rules from an open index to an open
   * index.
   */
  lemma PlannedCallsOrder(index: string, hasSettings: bool, settings: bool)
    ensures var calls := PlannedCalls(index, hasSettings, settings);
      calls[|calls| - 1] == PutMapping(index) &&
      (forall k :: 0 <= k < |calls| ==> !calls[k].GetAliases? && calls[k].index == index) &&
      (PutSettings(index) in calls <==> hasSettings && settings) &&
      OpenAfter(true, calls) == Some(true)
  {
    var calls := PlannedCalls(index, hasSettings, settings);
    if hasSettings && settings {
      assert calls == [CloseIndex(index), PutSettings(index), OpenIndex(index), PutMapping(index)];
      assert calls[1..] == [PutSettings(index), OpenIndex(index), PutMapping(index)];
      assert calls[1..][1..] == [OpenIndex(index), PutMapping(index)];
      assert calls[1..][1..][1..] == [PutMapping(index)];
      assert OpenAfter(true, calls[1..][1..][1..]) == Some(true);
      assert OpenAfter(false, calls[1..][1..]) == Some(true);
      assert OpenAfter(false, calls[1..]) == Some(true);
    } else {
      assert calls == [PutMapping(index)];
      assert OpenAfter(true, calls[1..]) == Some(true);
    }
  }

  /** The calls the cluster receives: those planned, up to and including the first one it answers with an exception. */
  function Attempted(calls: seq<Request>, faults: set<Request>): (sent: seq<Request>)
    ensures |sent| <= |calls| && sent == calls[..|sent|]
    decreases |calls|
  {
    if calls == [] then []
    else if calls[0] in faults then [calls[0]]
    else [calls[0]] + Attempted(calls[1..], faults)
  }

  /** The first planned call the cluster answers with an exception, if any. */
  function FirstFault(calls: seq<Request>, faults: set<Request>): Option<Request>
    decreases |calls|
  {
    if calls == [] then None
    else if calls[0] in faults then Some(calls[0])
    else FirstFault(calls[1..], faults)
  }

  /** The calls are all sent exactly when none raises; otherwise the sending stops at the one that does. */
  lemma {:induction false} AttemptedStopsAtFault(calls: seq<Request>, faults: set<Request>)
    ensures FirstFault(calls, faults).None? ==> Attempted(calls, faults) == calls
    ensures FirstFault(calls, faults).None? <==> forall k :: 0 <= k < |calls| ==> calls[k] !in faults
    ensures FirstFault(calls, faults).Some? ==>
      var sent := Attempted(calls, faults);
      sent != [] && sent[|sent| - 1] == FirstFault(calls, faults).value && sent[|sent| - 1] in faults &&
      forall k :: 0 <= k < |sent| - 1 ==> sent[k] !in faults
    decreases |calls|
  {
    if calls != [] && calls[0] !in faults {
      AttemptedStopsAtFault(calls[1..], faults);
      var rest := Attempted(calls[1..], faults);
      assert Attempted(calls, faults) == [calls[0]] + rest;
      if FirstFault(calls, faults).None? {
        forall k | 0 <= k < |calls|
          ensures calls[k] !in faults
        {
          if k > 0 {
            assert calls[k] == calls[1..][k - 1];
          }
        }
      }
    }
  }

  /** The calls sent and the first exception for each planned sequence, call by call. */
  lemma PlannedCallsSent(index: string, faults: set<Request>)
    ensures var (c, p, o, m) := (CloseIndex(index), PutSettings(index), OpenIndex(index), PutMapping(index));
      Attempted([m], faults) == [m] &&
      FirstFault([m], faults) == (if m in faults then Some(m) else None) &&
      Attempted([c, p, o, m], faults) ==
        (if c in faults then [c] else if p in faults then [c, p] else if o in faults then [c, p, o] else [c, p, o, m]) &&
      FirstFault([c, p, o, m], faults) ==
        (if c in faults then Some(c) else if p in faults then Some(p) else if o in faults then Some(o)
         else FirstFault([m], faults))
  {
    var (c, p, o, m) := (CloseIndex(index), PutSettings(index), OpenIndex(index), PutMapping(index));
    assert [m][1..] == [];
    assert [c, p, o, m][1..] == [p, o, m];
    assert [p, o, m][1..] == [o, m];
    assert [o, m][1..] == [m];
    assert Attempted([o, m], faults) == if o in faults then [o] else [o, m];
    assert Attempted([p, o, m], faults) == if p in faults then [p] else [p] + Attempted([o, m], faults);
    assert FirstFault([o, m], faults) == if o in faults then Some(o) else FirstFault([m], faults);
    assert FirstFault([p, o, m], faults) == if p in faults then Some(p) else FirstFault([o, m], faults);
  }

  /**
   * What `update_mapping` learns for one index: the exception of the first
   * call that raises, or whether the mapping update was acknowledged.
   */
  function IndexOutcome(index: string, hasSettings: bool, settings: bool, faults: set<Request>,
                        unacknowledged: set<string>): Result<bool, Failure>
  {
    match FirstFault(PlannedCalls(index, hasSettings, settings), faults)
    case Some(req) => Err(TransportError(req))
    case None => Ok(index !in unacknowledged)
  }

  // ---------------------------------------------------------------------
  // update_mapping: what is printed
  // ---------------------------------------------------------------------

  /** A line `update_mapping` prints about an index. */
  datatype MappingReport =
    | Updated(index: string)                  // "has been sucessfully updated"
    | Refused(index: string)                  // "error: {res}", the update not acknowledged
    | Raised(index: string, failure: Failure) // "error: {excep}"

  /** The reports for the indices in order, each with its outcome, as evidently intended: one line per index. */
  function MappingReports(indices: seq<string>, outcomes: seq<Result<bool, Failure>>): (reports: seq<MappingReport>)
    requires |indices| == |outcomes|
    ensures |reports| == |indices|
    decreases |indices|
  {
    if indices == [] then []
    else
      var n := |indices| - 1;
      MappingReports(indices[..n], outcomes[..n]) +
        [match outcomes[n]
         case Err(e) => Raised(indices[n], e)
         case Ok(ack) => if ack then Updated(indices[n]) else Refused(indices[n])]
  }

  /** With the correction, an index is reported updated exactly when its mapping update was acknowledged. */
  lemma {:induction false} MappingReportsMeaning(indices: seq<string>, outcomes: seq<Result<bool, Failure>>)
    requires |indices| == |outcomes|
    ensures forall k :: 0 <= k < |indices| ==>
      (MappingReports(indices, outcomes)[k] == Updated(indices[k]) <==> outcomes[k] == Ok(true)) &&
      (MappingReports(indices, outcomes)[k].Raised? <==> outcomes[k].Err?) &&
      MappingReports(indices, outcomes)[k].index == indices[k]
    decreases |indices|
  {
    if indices != [] {
      var n := |indices| - 1;
      MappingReportsMeaning(indices[..n], outcomes[..n]);
      forall k | 0 <= k < n
        ensures indices[..n][k] == indices[k] && outcomes[..n][k] == outcomes[k]
      {
      }
    }
  }

  /**
   * The reports as written: after an exception, the error is printed and
   * then `res` is read anyway. Before any index succeeded `res` is unbound
   * and the command dies; later it still holds the previous index's
   * response, which is reported as if it were this index's.
   */
  function MappingReportsAsWritten(indices: seq<string>, outcomes: seq<Result<bool, Failure>>, res: Option<bool>)
    : Result<seq<MappingReport>, Failure>
    requires |indices| == |outcomes|
    decreases |indices|
  {
    if indices == [] then Ok([])
    else
      var (reported, current) :=
        match outcomes[0]
        case Err(e) => ([Raised(indices[0], e)], res)
        case Ok(ack) => ([], Some(ack));
      if current.None? then Err(UnboundLocalError)
      else
        var line := if current.value then Updated(indices[0]) else Refused(indices[0]);
        match MappingReportsAsWritten(indices[1..], outcomes[1..], current)
        case Err(e) => Err(e)
        case Ok(rest) => Ok(reported + [line] + rest)
  }

  /**
   * As written, when the first index's calls raise the command dies on the
   * unbound `res`; when a later index's calls raise after an index was
   * updated, the failed index is reported as updated too.
   */
  lemma MappingReportsAsWrittenMisreports(i: string, j: string, e: Failure)
    ensures MappingReportsAsWritten([i], [Err(e)], None) == Err(UnboundLocalError)
    ensures MappingReportsAsWritten([i, j], [Ok(true), Err(e)], None) ==
      Ok([Updated(i), Raised(j, e), Updated(j)])
    ensures MappingReports([i, j], [Ok(true), Err(e)]) == [Updated(i), Raised(j, e)]
  {
    assert [i, j][1..] == [j];
    assert [Ok(true), Err(e)][1..] == [Err(e)];
    assert MappingReportsAsWritten([j], [Err(e)], Some(true)) == Ok([Raised(j, e), Updated(j)]) by {
      var tail: seq<Result<bool, Failure>> := [Err(e)];
      assert [j][1..] == [] && tail[1..] == [];
      assert MappingReportsAsWritten([], [], Some(true)) == Ok([]);
      assert [Raised(j, e)] + [Updated(j)] + [] == [Raised(j, e), Updated(j)];
    }
    assert [] + [Updated(i)] + [Raised(j, e), Updated(j)] == [Updated(i), Raised(j, e), Updated(j)];
    assert [i, j][..1] == [i];
    assert [Ok(true), Err(e)][..1] == [Ok(true)];
    assert MappingReports([i], [Ok(true)]) == [Updated(i)];
  }

  /** As written, an exception in the first index's calls always ends the command on the unbound `res`. */
  lemma MappingReportsAsWrittenDies(indices: seq<string>, outcomes: seq<Result<bool, Failure>>)
    requires |indices| == |outcomes| && indices != [] && outcomes[0].Err?
    ensures MappingReportsAsWritten(indices, outcomes, None) == Err(UnboundLocalError)
  {
  }

  /**
   * As long as no index's calls raise, the reports as written are the
   * corrected ones, whatever `res` held before: the two differ only from
   * the first exception on.
   */
  lemma {:induction false} MappingReportsAsWrittenAgree(indices: seq<string>, outcomes: seq<Result<bool, Failure>>,
                                                        res: Option<bool>)
    requires |indices| == |outcomes|
    requires forall k :: 0 <= k < |outcomes| ==> outcomes[k].Ok?
    ensures MappingReportsAsWritten(indices, outcomes, res) == Ok(MappingReports(indices, outcomes))
    decreases |indices|
  {
    if indices != [] {
      var ack := outcomes[0].value;
      MappingReportsAsWrittenAgree(indices[1..], outcomes[1..], Some(ack));
      var line := if ack then Updated(indices[0]) else Refused(indices[0]);
      assert MappingReports([indices[0]], [outcomes[0]]) == [line] by {
        assert [indices[0]][..0] == [] && [outcomes[0]][..0] == [];
      }
      MappingReportsAppend([indices[0]], [outcomes[0]], indices[1..], outcomes[1..]);
      assert [indices[0]] + indices[1..] == indices;
      assert [outcomes[0]] + outcomes[1..] == outcomes;
      assert [] + [line] + MappingReports(indices[1..], outcomes[1..]) == [line] + MappingReports(indices[1..], outcomes[1..]);
    }
  }

  // ---------------------------------------------------------------------
  // update_mapping: which indices
  // ---------------------------------------------------------------------

  /** An index of an alias and whether its mapping file has a `settings` section. */
  type Target = (string, bool)

  /** The search registry's aliases, in order, each with its indices in order. */
  type Registry = seq<(string, seq<Target>)>

  /** The indices of the first registry entry named `alias`, if any. */
  function IndicesOf(registry: Registry, alias: string): Option<seq<Target>>
    decreases |registry|
  {
    if registry == [] then None
    else if registry[0].0 == alias then Some(registry[0].1)
    else IndicesOf(registry[1..], alias)
  }

  /** The aliases `update_mapping` works through: those given, or all the registry's when none is given. */
  function Selected(registry: Registry, aliases: seq<string>): (names: seq<string>)
    ensures aliases != [] ==> names == aliases
    ensures aliases == [] ==> |names| == |registry| && forall k :: 0 <= k < |names| ==> names[k] == registry[k].0
  {
    if aliases != [] then aliases
    else seq(|registry|, k requires 0 <= k < |registry| => registry[k].0)
  }

  /**
   * The indices worked on for the aliases `names`, in order, and whether
   * the command then dies on an alias the registry does not know
   * (`get(alias)` gives `None`, which has no `items`).
   */
  function Targets(registry: Registry, names: seq<string>): (seq<Target>, bool)
    decreases |names|
  {
    if names == [] then ([], false)
    else
      var (before, dead) := Targets(registry, names[..|names| - 1]);
      if dead then (before, true)
      else
        match IndicesOf(registry, names[|names| - 1])
        case None => (before, true)
        case Some(targets) => (before + targets, false)
  }

  /** Aliases the registry knows add their indices in order, and nothing dies. */
  lemma {:induction false} TargetsOfKnown(registry: Registry, names: seq<string>)
    requires forall k :: 0 <= k < |names| ==> IndicesOf(registry, names[k]).Some?
    ensures !Targets(registry, names).1
    ensures names != [] ==>
              Targets(registry, names).0 ==
              Targets(registry, names[..|names| - 1]).0 + IndicesOf(registry, names[|names| - 1]).value
    decreases |names|
  {
    if names != [] {
      var init := names[..|names| - 1];
      forall k | 0 <= k < |init|
        ensures IndicesOf(registry, init[k]).Some?
      {
        assert init[k] == names[k];
      }
      TargetsOfKnown(registry, init);
    }
  }

  /** The requests the cluster receives for the indices, in order. */
  function MappingRequests(targets: seq<Target>, settings: bool, faults: set<Request>): seq<Request>
    decreases |targets|
  {
    if targets == [] then []
    else
      var n := |targets| - 1;
      MappingRequests(targets[..n], settings, faults) +
        Attempted(PlannedCalls(targets[n].0, targets[n].1, settings), faults)
  }

  /** The outcome of each index in order. */
  function MappingOutcomes(targets: seq<Target>, settings: bool, faults: set<Request>, unacknowledged: set<string>)
    : (outcomes: seq<Result<bool, Failure>>)
    ensures |outcomes| == |targets|
    ensures forall k :: 0 <= k < |targets| ==>
      outcomes[k] == IndexOutcome(targets[k].0, targets[k].1, settings, faults, unacknowledged)
  {
    seq(|targets|, k requires 0 <= k < |targets| =>
      IndexOutcome(targets[k].0, targets[k].1, settings, faults, unacknowledged))
  }

  /** The index names of the targets. */
  function Names(targets: seq<Target>): (names: seq<string>)
    ensures |names| == |targets|
    ensures forall k :: 0 <= k < |targets| ==> names[k] == targets[k].0
  {
    seq(|targets|, k requires 0 <= k < |targets| => targets[k].0)
  }

  /** The reports for the targets, one per index, from their outcomes. */
  function ReportsFor(targets: seq<Target>, settings: bool, faults: set<Request>, unacknowledged: set<string>)
    : seq<MappingReport>
  {
    MappingReports(Names(targets), MappingOutcomes(targets, settings, faults, unacknowledged))
  }

  /** One more index adds its one report. */
  lemma ReportsForStep(targets: seq<Target>, j: nat, settings: bool, faults: set<Request>, unacknowledged: set<string>)
    requires j < |targets|
    ensures ReportsFor(targets[..j + 1], settings, faults, unacknowledged) ==
      ReportsFor(targets[..j], settings, faults, unacknowledged) +
      [match IndexOutcome(targets[j].0, targets[j].1, settings, faults, unacknowledged)
       case Err(e) => Raised(targets[j].0, e)
       case Ok(ack) => if ack then Updated(targets[j].0) else Refused(targets[j].0)]
  {
    var t := targets[..j + 1];
    assert Names(t)[..j] == Names(targets[..j]);
    assert MappingOutcomes(t, settings, faults, unacknowledged)[..j] == MappingOutcomes(targets[..j], settings, faults, unacknowledged);
  }

  /** The reports of two runs of indices, one after the other, are the reports of both together. */
  lemma {:induction false} MappingReportsAppend(a: seq<string>, x: seq<Result<bool, Failure>>, b: seq<string>, y: seq<Result<bool, Failure>>)
    requires |a| == |x| && |b| == |y|
    ensures MappingReports(a + b, x + y) == MappingReports(a, x) + MappingReports(b, y)
    decreases |b|
  {
    if b == [] {
      assert a + b == a && x + y == x;
    } else {
      var n := |b| - 1;
      MappingReportsAppend(a, x, b[..n], y[..n]);
      assert (a + b)[..|a| + n] == a + b[..n];
      assert (x + y)[..|x| + n] == x + y[..n];
    }
  }

  lemma ReportsForAppend(a: seq<Target>, b: seq<Target>, settings: bool, faults: set<Request>, unacknowledged: set<string>)
    ensures ReportsFor(a + b, settings, faults, unacknowledged) ==
      ReportsFor(a, settings, faults, unacknowledged) + ReportsFor(b, settings, faults, unacknowledged)
  {
    assert Names(a + b) == Names(a) + Names(b);
    assert MappingOutcomes(a + b, settings, faults, unacknowledged) ==
      MappingOutcomes(a, settings, faults, unacknowledged) + MappingOutcomes(b, settings, faults, unacknowledged);
    MappingReportsAppend(Names(a), MappingOutcomes(a, settings, faults, unacknowledged),
                         Names(b), MappingOutcomes(b, settings, faults, unacknowledged));
  }

  /** The requests for two runs of indices, one after the other, are the requests of both together. */
  lemma {:induction false} MappingRequestsAppend(a: seq<Target>, b: seq<Target>, settings: bool, faults: set<Request>)
    ensures MappingRequests(a + b, settings, faults) == MappingRequests(a, settings, faults) + MappingRequests(b, settings, faults)
    decreases |b|
  {
    if b == [] {
      assert a + b == a;
    } else {
      var n := |b| - 1;
      var ab := a + b;
      var last := Attempted(PlannedCalls(b[n].0, b[n].1, settings), faults);
      MappingRequestsAppend(a, b[..n], settings, faults);
      assert ab[..|ab| - 1] == a + b[..n] && ab[|ab| - 1] == b[n];
      assert MappingRequests(ab, settings, faults) == MappingRequests(a + b[..n], settings, faults) + last;
      assert MappingRequests(b, settings, faults) == MappingRequests(b[..n], settings, faults) + last;
    }
  }

  /** One more index adds the calls sent for it. */
  lemma MappingRequestsStep(before: seq<Request>, targets: seq<Target>, j: nat, settings: bool, faults: set<Request>)
    requires j < |targets|
    ensures before + MappingRequests(targets[..j], settings, faults) +
              Attempted(PlannedCalls(targets[j].0, targets[j].1, settings), faults) ==
            before + MappingRequests(targets[..j + 1], settings, faults)
  {
    assert targets[..j + 1][..j] == targets[..j];
  }

  /** The requests logged after those of `done`, then those of `more`, are the requests of both. */
  lemma MappingRequestsAfter(before: seq<Request>, done: seq<Target>, more: seq<Target>, settings: bool, faults: set<Request>)
    ensures before + MappingRequests(done, settings, faults) + MappingRequests(more, settings, faults) ==
      before + MappingRequests(done + more, settings, faults)
  {
    MappingRequestsAppend(done, more, settings, faults);
  }

  /** One more alias, while none has ended the command: its indices, or the end when the registry does not know it. */
  lemma TargetsNext(registry: Registry, names: seq<string>, i: nat)
    requires i < |names| && !Targets(registry, names[..i]).1
    ensures IndicesOf(registry, names[i]).None? ==>
      Targets(registry, names[..i + 1]) == (Targets(registry, names[..i]).0, true)
    ensures IndicesOf(registry, names[i]).Some? ==>
      Targets(registry, names[..i + 1]) == (Targets(registry, names[..i]).0 + IndicesOf(registry, names[i]).value, false)
  {
    assert names[..i + 1][..i] == names[..i];
  }

  /** Once an unknown alias has ended the command, later aliases change nothing. */
  lemma {:induction false} TargetsStayDead(registry: Registry, names: seq<string>, i: nat)
    requires i <= |names| && (i == |names| || Targets(registry, names[..i]).1)
    ensures Targets(registry, names) == Targets(registry, names[..i])
    decreases |names|
  {
    if i == |names| {
      assert names[..i] == names;
    } else {
      var init := names[..|names| - 1];
      assert init[..i] == names[..i];
      TargetsStayDead(registry, init, i);
    }
  }

  // ---------------------------------------------------------------------
  // The cluster
  // ---------------------------------------------------------------------

  class Cluster {
    /** The aliases on each index. */
    var aliases: AliasTable
    /** Every request received, in order. */
    var requests: seq<Request>
    /** The requests the cluster answers with an exception. */
    const faults: set<Request>
    /** The indices whose mapping update the cluster answers without `acknowledged`. */
    const unacknowledged: set<string>

    constructor(aliases: AliasTable, faults: set<Request>, unacknowledged: set<string>)
      ensures this.aliases == aliases && requests == []
      ensures this.faults == faults && this.unacknowledged == unacknowledged
    {
      this.aliases := aliases;
      this.requests := [];
      this.faults := faults;
      this.unacknowledged := unacknowledged;
    }

    /** `indices.get_alias()`: the alias table of every index, unless the cluster answers with an exception. */
    method GetAliasTable() returns (r: Result<AliasTable, Failure>)
      modifies this
      ensures requests == old(requests) + [GetAliases] && aliases == old(aliases)
      ensures r == if GetAliases in faults then Err(TransportError(GetAliases)) else Ok(aliases)
    {
      requests := requests + [GetAliases];
      if GetAliases in faults {
        return Err(TransportError(GetAliases));
      }
      return Ok(aliases);
    }

    /**
     * `indices.put_alias(index, alias)`: adds the alias to an existing
     * index, unless the cluster answers with an exception.
     */
    method PutAliasOn(index: string, alias: string) returns (r: Result<(), Failure>)
      modifies this
      ensures requests == old(requests) + [PutAlias(index, alias)]
      ensures PutAlias(index, alias) in faults ==>
                r == Err(TransportError(PutAlias(index, alias))) && aliases == old(aliases)
      ensures PutAlias(index, alias) !in faults && index in old(aliases) ==>
                r.Ok? && aliases == old(aliases)[index := old(aliases)[index] + {alias}]
      ensures PutAlias(index, alias) !in faults && index !in old(aliases) ==>
                r == Err(NotFoundError(index)) && aliases == old(aliases)
    {
      requests := requests + [PutAlias(index, alias)];
      if PutAlias(index, alias) in faults {
        return Err(TransportError(PutAlias(index, alias)));
      }
      if index !in aliases {
        return Err(NotFoundError(index));
      }
      aliases := aliases[index := aliases[index] + {alias}];
      return Ok(());
    }

    /**
     * `indices.delete_alias(index, alias)`: removes an alias the index has,
     * unless the cluster answers with an exception.
     */
    method DeleteAliasFrom(index: string, alias: string) returns (r: Result<(), Failure>)
      modifies this
      ensures requests == old(requests) + [DeleteAlias(index, alias)]
      ensures DeleteAlias(index, alias) in faults ==>
                r == Err(TransportError(DeleteAlias(index, alias))) && aliases == old(aliases)
      ensures DeleteAlias(index, alias) !in faults && index in old(aliases) && alias in old(aliases)[index] ==>
                r.Ok? && aliases == old(aliases)[index := old(aliases)[index] - {alias}]
      ensures DeleteAlias(index, alias) !in faults && !(index in old(aliases) && alias in old(aliases)[index]) ==>
                r == Err(NotFoundError(index)) && aliases == old(aliases)
    {
      requests := requests + [DeleteAlias(index, alias)];
      if DeleteAlias(index, alias) in faults {
        return Err(TransportError(DeleteAlias(index, alias)));
      }
      if index !in aliases || alias !in aliases[index] {
        return Err(NotFoundError(index));
      }
      aliases := aliases[index := aliases[index] - {alias}];
      return Ok(());
    }

    /**
     * `switch old new`: list the aliases, then for each alias of `old`, in
     * the order the cluster lists them (`order`), put it on `new`, then
     * delete it from `old`. Nothing catches an exception: a request the
     * cluster answers with one ends the command, with the aliases before it
     * already moved and, when it was the delete, the last alias on both
     * indices; `order` then ends with the alias whose move failed.
     */
    method SwitchIndex(oldIndex: string, newIndex: string) returns (r: Result<(), Failure>, ghost order: seq<string>)
      modifies this
      ensures GetAliases in faults ==>
                r == Err(TransportError(GetAliases)) && aliases == old(aliases) && requests == old(requests) + [GetAliases]
      ensures GetAliases !in faults && oldIndex !in old(aliases) ==>
                r == Err(AttributeError) && aliases == old(aliases) && requests == old(requests) + [GetAliases]
      ensures r.Ok? ==> Switch(old(aliases), oldIndex, newIndex) == Ok(aliases)
      ensures r.Ok? ==> (forall a :: a in order <==> a in old(aliases)[oldIndex]) &&
                        requests == old(requests) + [GetAliases] + SwitchRequests(oldIndex, newIndex, order)
      ensures SwitchUnfaulted(old(aliases), oldIndex, newIndex, faults) ==>
                (r.Ok? <==> Switch(old(aliases), oldIndex, newIndex).Ok?) &&
                (r.Err? ==> Switch(old(aliases), oldIndex, newIndex) == Err(r.error) && aliases == old(aliases))
      ensures r.Err? && GetAliases !in faults && oldIndex in old(aliases) ==>
                order != [] && (forall a :: a in order ==> a in old(aliases)[oldIndex]) &&
                var moved := order[..|order| - 1];
                var last := order[|order| - 1];
                var sent := old(requests) + [GetAliases] + SwitchRequests(oldIndex, newIndex, moved) + [PutAlias(newIndex, last)];
                last !in moved &&
                if newIndex !in old(aliases) then
                  moved == [] && aliases == old(aliases) && requests == sent &&
                  r.error == (if PutAlias(newIndex, last) in faults then TransportError(PutAlias(newIndex, last)) else NotFoundError(newIndex))
                else
                  var mid := Moved(old(aliases), oldIndex, newIndex, Elems(moved));
                  if PutAlias(newIndex, last) in faults then
                    r.error == TransportError(PutAlias(newIndex, last)) && aliases == mid && requests == sent
                  else
                    r.error == TransportError(DeleteAlias(oldIndex, last)) && DeleteAlias(oldIndex, last) in faults &&
                    aliases == mid[newIndex := mid[newIndex] + {last}] && requests == sent + [DeleteAlias(oldIndex, last)]
    {
      order := [];
      var listed := GetAliasTable();
      if listed.Err? {
        return Err(listed.error), order;
      }
      if oldIndex !in listed.value {
        return Err(AttributeError), order;
      }
      ghost var table := aliases;
      ghost var before := requests;
      var names := listed.value[oldIndex];
      var remaining := names;
      ghost var done: set<string> := {};
      while remaining != {}
        invariant done + remaining == names && done !! remaining && oldIndex in table && names == table[oldIndex]
        invariant done != {} ==> newIndex in table
        invariant aliases == Moved(table, oldIndex, newIndex, done)
        invariant forall a :: a in order <==> a in done
        invariant done == {} ==> order == []
        invariant requests == before + SwitchRequests(oldIndex, newIndex, order)
        decreases remaining
      {
        var a :| a in remaining;
        var moved := MoveAlias(oldIndex, newIndex, a);
        if moved.Err? {
          assert Elems(order) == done;
          assert (order + [a])[..|order|] == order;
          return moved, order + [a];
        }
        MovedStep(table, oldIndex, newIndex, done, a);
        SwitchRequestsStep(before, oldIndex, newIndex, order, a);
        remaining := remaining - {a};
        done := done + {a};
        order := order + [a];
      }
      return Ok(()), order;
    }

    /** The body of the loop of `switch`: put the alias on `new`, then delete it from `old`. */
    method MoveAlias(oldIndex: string, newIndex: string, a: string) returns (r: Result<(), Failure>)
      requires oldIndex in aliases && a in aliases[oldIndex]
      modifies this
      ensures newIndex !in old(aliases) || PutAlias(newIndex, a) in faults ==>
                r == Err(if PutAlias(newIndex, a) in faults then TransportError(PutAlias(newIndex, a)) else NotFoundError(newIndex)) &&
                aliases == old(aliases) && requests == old(requests) + [PutAlias(newIndex, a)]
      ensures newIndex in old(aliases) && PutAlias(newIndex, a) !in faults ==>
                var put := old(aliases)[newIndex := old(aliases)[newIndex] + {a}];
                requests == old(requests) + [PutAlias(newIndex, a), DeleteAlias(oldIndex, a)] &&
                if DeleteAlias(oldIndex, a) in faults then
                  r == Err(TransportError(DeleteAlias(oldIndex, a))) && aliases == put
                else
                  r.Ok? && aliases == put[oldIndex := put[oldIndex] - {a}]
    {
      r := PutAliasOn(newIndex, a);
      if r.Err? {
        return;
      }
      r := DeleteAliasFrom(oldIndex, a);
    }

    /** A call that changes no alias: logged, then answered with an exception or, for a mapping, whether it was acknowledged. */
    method Call(req: Request) returns (r: Result<bool, Failure>)
      requires !req.GetAliases? && !req.PutAlias? && !req.DeleteAlias?
      modifies this
      ensures requests == old(requests) + [req] && aliases == old(aliases)
      ensures r == if req in faults then Err(TransportError(req)) else Ok(req.index !in unacknowledged)
    {
      requests := requests + [req];
      if req in faults {
        return Err(TransportError(req));
      }
      return Ok(req.index !in unacknowledged);
    }

    /** The `try` block of `update_mapping` for one index. */
    method UpdateIndex(index: string, hasSettings: bool, settings: bool) returns (r: Result<bool, Failure>)
      modifies this
      ensures aliases == old(aliases)
      ensures requests == old(requests) + Attempted(PlannedCalls(index, hasSettings, settings), faults)
      ensures r == IndexOutcome(index, hasSettings, settings, faults, unacknowledged)
    {
      PlannedCallsSent(index, faults);
      assert PlannedCalls(index, hasSettings, settings) ==
        if hasSettings && settings then [CloseIndex(index), PutSettings(index), OpenIndex(index), PutMapping(index)]
        else [PutMapping(index)];
      if hasSettings && settings {
        var closed := Call(CloseIndex(index));
        if closed.Err? {
          return Err(closed.error);
        }
        var put := Call(PutSettings(index));
        if put.Err? {
          return Err(put.error);
        }
        var reopened := Call(OpenIndex(index));
        if reopened.Err? {
          return Err(reopened.error);
        }
      }
      r := Call(PutMapping(index));
    }

    /**
     * `update_mapping` as evidently intended: every index of every selected
     * alias in turn, one report each, until an alias the registry does not
     * know ends the command. As written, an exception in an index's calls
     * is followed by a read of `res` (see `MappingReportsAsWritten`).
     */
    method UpdateMapping(registry: Registry, names: seq<string>, settings: bool)
      returns (reports: seq<MappingReport>, r: Result<(), Failure>)
      modifies this
      ensures var (targets, dead) := Targets(registry, Selected(registry, names));
        aliases == old(aliases) &&
        requests == old(requests) + MappingRequests(targets, settings, faults) &&
        reports == ReportsFor(targets, settings, faults, unacknowledged) &&
        (r.Err? <==> dead) && (r.Err? ==> r.error == AttributeError)
    {
      var selected := Selected(registry, names);
      ghost var before := requests;
      ghost var done: seq<Target> := [];
      reports := [];
      var i := 0;
      var dead := false;
      while i < |selected| && !dead
        invariant i <= |selected|
        invariant Targets(registry, selected[..i]).0 == done && Targets(registry, selected[..i]).1 == dead
        invariant aliases == old(aliases)
        invariant requests == before + MappingRequests(done, settings, faults)
        invariant reports == ReportsFor(done, settings, faults, unacknowledged)
      {
        TargetsNext(registry, selected, i);
        var found := IndicesOf(registry, selected[i]);
        if found.None? {
          dead := true;
        } else {
          var more := UpdateAlias(found.value, settings);
          MappingRequestsAfter(before, done, found.value, settings, faults);
          ReportsForAppend(done, found.value, settings, faults, unacknowledged);
          reports := reports + more;
          done := done + found.value;
        }
        i := i + 1;
      }
      TargetsStayDead(registry, selected, i);
      r := if dead then Err(AttributeError) else Ok(());
    }

    /** The inner loop of `update_mapping`: the indices of one alias in turn. */
    method UpdateAlias(targets: seq<Target>, settings: bool) returns (reports: seq<MappingReport>)
      modifies this
      ensures aliases == old(aliases)
      ensures requests == old(requests) + MappingRequests(targets, settings, faults)
      ensures reports == ReportsFor(targets, settings, faults, unacknowledged)
    {
      reports := [];
      for j := 0 to |targets|
        invariant aliases == old(aliases)
        invariant requests == old(requests) + MappingRequests(targets[..j], settings, faults)
        invariant reports == ReportsFor(targets[..j], settings, faults, unacknowledged)
      {
        var (index, hasSettings) := targets[j];
        var outcome := UpdateIndex(index, hasSettings, settings);
        var line := match outcome
          case Err(e) => Raised(index, e)
          case Ok(ack) => if ack then Updated(index) else Refused(index);
        reports := reports + [line];
        ReportsForStep(targets, j, settings, faults, unacknowledged);
        MappingRequestsStep(old(requests), targets, j, settings, faults);
      }
      assert targets[..|targets|] == targets;
    }
  }
}
