/**
 * The save path of the connection replication form: the update payload,
 * the `skipReset` decision, and the page flags `saved`,
 * `schemaHasBeenRefreshed` and `submitError` that `onFormSubmit` sets.
 */
module Replication {
  import opened Wrappers
  import opened Catalog

  datatype Status = Active | Inactive | Deprecated

  /** A top-level value of a connection update. */
  datatype Field<P> = Text(s: string) | Flag(b: bool) | Streams(streams: seq<SyncStream<P>>) | OtherField(tag: nat)

  type Fields<P> = map<string, Field<P>>

  /** `connection.catalogDiff`: its `transforms` may be absent. */
  datatype CatalogDiff = CatalogDiff(transforms: Option<seq<nat>>)

  /**
   * The stored connection. `asUpdate` is `toWebBackendConnectionUpdate(connection)`,
   * whose definition is not part of this model.
   */
  datatype Connection<P> = Connection(
    connectionId: string,
    status: Status,
    syncCatalog: seq<SyncStream<P>>,
    asUpdate: Fields<P>,
    catalogDiff: Option<CatalogDiff>)

  /** The tidied form values: the edited catalog and the other top-level fields. */
  datatype FormValues<P> = FormValues(syncCatalog: seq<SyncStream<P>>, rest: Fields<P>)

  /** What the modal resolves to: cancelled, or closed with the user's reset choice. */
  datatype ModalResult = Canceled | Closed(reason: bool)

  /** A value thrown by a network call and caught in `onFormSubmit`. */
  datatype Thrown = Thrown(id: nat)

  /** The outcomes of the calls this form makes but does not define. */
  datatype Environment = Environment(
    schemaRefreshing: bool,
    stateTypeLookup: Outcome<Thrown>,   // connectionService.getStateType
    modal: ModalResult,                 // openModal, consulted only on a catalog change
    updateOutcome: Outcome<Thrown>)     // updateConnection

  /** `catalogIsDifferent`: the diff is present and has at least one transform. */
  function CatalogIsDifferent(diff: Option<CatalogDiff>): bool
  {
    match diff
    case Some(CatalogDiff(Some(ts))) => |ts| > 0
    case _ => false
  }

  /** The form values spread into an object: the catalog rides along as `syncCatalog`. */
  function ValuesFields<P>(values: FormValues<P>): (r: Fields<P>)
    ensures r.Keys == values.rest.Keys + {"syncCatalog"}
    ensures r["syncCatalog"] == Streams(values.syncCatalog)
    ensures forall k :: k in values.rest && k != "syncCatalog" ==> r[k] == values.rest[k]
  {
    values.rest["syncCatalog" := Streams(values.syncCatalog)]
  }

  /**
   * `{...connectionAsUpdate, ...values, connectionId, skipReset}`: later
   * sources win, so form values override the stored connection and the last
   * two keys are always the stored id and the decided `skipReset`.
   */
  function UpdatePayload<P>(connection: Connection<P>, values: FormValues<P>, skipReset: bool): (r: Fields<P>)
    ensures r.Keys == connection.asUpdate.Keys + values.rest.Keys + {"syncCatalog", "connectionId", "skipReset"}
    ensures r["connectionId"] == Text(connection.connectionId)
    ensures r["skipReset"] == Flag(skipReset)
    ensures r["syncCatalog"] == Streams(values.syncCatalog)
    ensures forall k :: k in values.rest && k != "syncCatalog" && k != "connectionId" && k != "skipReset"
                        ==> r[k] == values.rest[k]
    ensures forall k :: k in connection.asUpdate && k !in values.rest
                        && k != "syncCatalog" && k != "connectionId" && k != "skipReset"
                        ==> r[k] == connection.asUpdate[k]
  {
    connection.asUpdate + ValuesFields(values)
      + map["connectionId" := Text(connection.connectionId), "skipReset" := Flag(skipReset)]
  }

  /**
   * The `skipReset` value `onFormSubmit` saves with, or None when it does not
   * save: no change saves with a skipped reset; a change asks the user, and a
   * cancelled modal saves nothing.
   */
  function SkipResetDecision(changed: bool, modal: ModalResult, status: Status): (r: Option<bool>)
    ensures r.None? <==> changed && modal == Canceled
    ensures !changed ==> r == Some(true)
    ensures r == Some(false) <==> changed && modal == Closed(true) && status == Active
  {
    if !changed then Some(true)
    else match modal
      case Canceled => None
      case Closed(reason) => Some(!reason || status != Active)
  }

  /** The flags of the page and the update requests it has issued. */
  datatype PageState<P> = PageState(
    saved: bool,
    schemaHasBeenRefreshed: bool,
    submitError: Option<Thrown>,
    sent: seq<Fields<P>>)

  /**
   * `saveConnection` followed by `setSaved(true)` and
   * `setSchemaHasBeenRefreshed(false)`. While the schema is refreshing nothing
   * is sent but the save still counts as done; a failed update sets the error.
   */
  function SaveThenMark<P>(st: PageState<P>, connection: Connection<P>, values: FormValues<P>,
                           skipReset: bool, env: Environment): PageState<P>
  {
    if env.schemaRefreshing then st.(saved := true, schemaHasBeenRefreshed := false)
    else
      var st' := st.(sent := st.sent + [UpdatePayload(connection, values, skipReset)]);
      match env.updateOutcome
      case Pass => st'.(saved := true, schemaHasBeenRefreshed := false)
      case Fail(e) => st'.(submitError := Some(e))
  }

  /** Whether `onFormSubmit` got to `setSaved(true)`. */
  predicate Completes<P(==)>(le: (string, string) -> bool, values: FormValues<P>, connection: Connection<P>, env: Environment) {
    var changed := HasCatalogChanged(le, values.syncCatalog, connection.syncCatalog);
    && (changed ==> env.stateTypeLookup.Pass? && env.modal.Closed?)
    && (env.schemaRefreshing || env.updateOutcome.Pass?)
  }

  /**
   * The `skipReset` that `onFormSubmit` saves with, or None when it stops
   * before saving (a failed state-type lookup or a cancelled modal).
   */
  function SubmitDecision<P(==)>(le: (string, string) -> bool, values: FormValues<P>,
                                 connection: Connection<P>, env: Environment): Option<bool>
  {
    var changed := HasCatalogChanged(le, values.syncCatalog, connection.syncCatalog);
    if changed && env.stateTypeLookup.Fail? then None
    else SkipResetDecision(changed, env.modal, connection.status)
  }

  /** The state `onFormSubmit` leaves behind. */
  function Submit<P(==)>(st: PageState<P>, le: (string, string) -> bool, values: FormValues<P>,
                         connection: Connection<P>, env: Environment): PageState<P>
  {
    var cleared := st.(submitError := None);
    match SubmitDecision(le, values, connection, env)
    case None =>
      if env.stateTypeLookup.Fail? && HasCatalogChanged(le, values.syncCatalog, connection.syncCatalog)
      then cleared.(submitError := Some(env.stateTypeLookup.error))
      else cleared
    case Some(skipReset) => SaveThenMark(cleared, connection, values, skipReset, env)
  }

  /** The payloads saved with and without a reset are told apart by `skipReset`. */
  lemma PayloadsDiffer<P>(connection: Connection<P>, values: FormValues<P>)
    ensures UpdatePayload(connection, values, true) != UpdatePayload(connection, values, false)
  {
    assert UpdatePayload(connection, values, true)["skipReset"] != UpdatePayload(connection, values, false)["skipReset"];
  }

  /** The decision is made exactly when the submit gets past the lookup and the modal. */
  lemma SubmitDecisionCases<P>(le: (string, string) -> bool, values: FormValues<P>,
                                   connection: Connection<P>, env: Environment)
    ensures var changed := HasCatalogChanged(le, values.syncCatalog, connection.syncCatalog);
            SubmitDecision(le, values, connection, env).None?
            <==> changed && (env.stateTypeLookup.Fail? || env.modal == Canceled)
    ensures !HasCatalogChanged(le, values.syncCatalog, connection.syncCatalog)
            ==> SubmitDecision(le, values, connection, env) == Some(true)
    ensures SubmitDecision(le, values, connection, env) == Some(false)
            <==> && HasCatalogChanged(le, values.syncCatalog, connection.syncCatalog)
                 && env.stateTypeLookup.Pass? && env.modal == Closed(true) && connection.status == Active
  {
  }

  /** What `onFormSubmit` sends: the payload for the decision, unless the schema is refreshing. */
  lemma SubmitSent<P>(st: PageState<P>, le: (string, string) -> bool, values: FormValues<P>,
                          connection: Connection<P>, env: Environment)
    ensures var d := SubmitDecision(le, values, connection, env);
            Submit(st, le, values, connection, env).sent
            == if d.None? || env.schemaRefreshing then st.sent else st.sent + [UpdatePayload(connection, values, d.value)]
  {
  }

  /** `saved := true` and `schemaHasBeenRefreshed := false` happen exactly when the submit completes. */
  lemma SubmitMarksSavedIffCompletes<P>(st: PageState<P>, le: (string, string) -> bool, values: FormValues<P>,
                                            connection: Connection<P>, env: Environment)
    ensures Submit(st, le, values, connection, env).saved == (st.saved || Completes(le, values, connection, env))
    ensures Submit(st, le, values, connection, env).schemaHasBeenRefreshed
            == (st.schemaHasBeenRefreshed && !Completes(le, values, connection, env))
  {
    SubmitDecisionCases(le, values, connection, env);
  }

  /**
   * At most one update is sent and it is the merged payload; nothing is sent
   * while the schema is refreshing, and an unchanged catalog is saved without
   * a modal and with `skipReset = true`.
   */
  lemma SubmitSendsAtMostOnePayload<P>(st: PageState<P>, le: (string, string) -> bool, values: FormValues<P>,
                                           connection: Connection<P>, env: Environment)
    ensures var r := Submit(st, le, values, connection, env);
            || r.sent == st.sent
            || r.sent == st.sent + [UpdatePayload(connection, values, true)]
            || r.sent == st.sent + [UpdatePayload(connection, values, false)]
    ensures env.schemaRefreshing ==> Submit(st, le, values, connection, env).sent == st.sent
    ensures !HasCatalogChanged(le, values.syncCatalog, connection.syncCatalog) && !env.schemaRefreshing
            ==> Submit(st, le, values, connection, env).sent == st.sent + [UpdatePayload(connection, values, true)]
  {
    SubmitSent(st, le, values, connection, env);
    SubmitDecisionCases(le, values, connection, env);
  }

  /** A cancelled modal leaves everything but the cleared error alone. */
  lemma SubmitCanceledChangesNothing<P>(st: PageState<P>, le: (string, string) -> bool, values: FormValues<P>,
                                            connection: Connection<P>, env: Environment)
    requires HasCatalogChanged(le, values.syncCatalog, connection.syncCatalog)
    requires env.stateTypeLookup.Pass? && env.modal == Canceled
    ensures Submit(st, le, values, connection, env) == st.(submitError := None)
  {
    SubmitDecisionCases(le, values, connection, env);
  }

  /** A reset is requested exactly when the catalog changed, the user chose it, the connection is active and the schema is not refreshing. */
  lemma SubmitResetsOnlyWhenChosen<P>(st: PageState<P>, le: (string, string) -> bool, values: FormValues<P>,
                                          connection: Connection<P>, env: Environment)
    ensures Submit(st, le, values, connection, env).sent == st.sent + [UpdatePayload(connection, values, false)]
            <==> && HasCatalogChanged(le, values.syncCatalog, connection.syncCatalog)
                 && env.stateTypeLookup.Pass? && env.modal == Closed(true)
                 && connection.status == Active && !env.schemaRefreshing
  {
    SubmitSent(st, le, values, connection, env);
    SubmitDecisionCases(le, values, connection, env);
    var keep, reset := UpdatePayload(connection, values, true), UpdatePayload(connection, values, false);
    PayloadsDiffer(connection, values);
    assert (st.sent + [keep])[|st.sent|] == keep && (st.sent + [reset])[|st.sent|] == reset;
    assert |st.sent + [reset]| != |st.sent|;
  }

  /** The error is cleared first and set only by the failed call that threw it. */
  lemma SubmitErrorComesFromFailedCall<P>(st: PageState<P>, le: (string, string) -> bool, values: FormValues<P>,
                                              connection: Connection<P>, env: Environment)
    ensures var r := Submit(st, le, values, connection, env);
            r.submitError.Some? ==>
            || (env.stateTypeLookup.Fail? && r.submitError == Some(env.stateTypeLookup.error) && r.sent == st.sent)
            || (env.updateOutcome.Fail? && r.submitError == Some(env.updateOutcome.error) && |r.sent| == |st.sent| + 1)
    ensures var r := Submit(st, le, values, connection, env);
            r.submitError.None? <==> Completes(le, values, connection, env)
                                     || (HasCatalogChanged(le, values.syncCatalog, connection.syncCatalog)
                                         && env.stateTypeLookup.Pass? && env.modal == Canceled)
  {
    SubmitSent(st, le, values, connection, env);
    SubmitDecisionCases(le, values, connection, env);
  }

  /** The page: its React state, with the setters as field updates. */
  class ConnectionReplicationPage<P(==)> {
    var saved: bool
    var schemaHasBeenRefreshed: bool
    var submitError: Option<Thrown>
    var sent: seq<Fields<P>>

    constructor (schemaHasBeenRefreshed: bool, submitError: Option<Thrown>)
      ensures State() == PageState(false, schemaHasBeenRefreshed, submitError, [])
    {
      this.saved := false;
      this.schemaHasBeenRefreshed := schemaHasBeenRefreshed;
      this.submitError := submitError;
      this.sent := [];
    }

    function State(): PageState<P>
      reads this
    {
      PageState(saved, schemaHasBeenRefreshed, submitError, sent)
    }

    /** `saveConnection`; a failed update comes back as the thrown value. */
    method SaveConnection(values: FormValues<P>, connection: Connection<P>, skipReset: bool, env: Environment)
      returns (thrown: Option<Thrown>)
      modifies this
      ensures env.schemaRefreshing ==> thrown == None && State() == old(State())
      ensures !env.schemaRefreshing ==>
              && State() == old(State()).(sent := old(sent) + [UpdatePayload(connection, values, skipReset)])
              && thrown == (if env.updateOutcome.Fail? then Some(env.updateOutcome.error) else None)
    {
      if env.schemaRefreshing {
        return None;
      }
      sent := sent + [UpdatePayload(connection, values, skipReset)];
      match env.updateOutcome
      case Pass => thrown := None;
      case Fail(e) => thrown := Some(e);
    }

    /** `onFormSubmit`, step by step through the setters. */
    method OnFormSubmit(le: (string, string) -> bool, values: FormValues<P>, connection: Connection<P>, env: Environment)
      modifies this
      ensures State() == Submit(old(State()), le, values, connection, env)
    {
      var hasCatalogChanged := HasCatalogChanged(le, values.syncCatalog, connection.syncCatalog);
      submitError := None;
      ghost var cleared := State();
      ghost var decision := SubmitDecision(le, values, connection, env);
      var thrown: Option<Thrown>;
      if hasCatalogChanged {
        if env.stateTypeLookup.Fail? {
          submitError := Some(env.stateTypeLookup.error);
          return;
        }
        match env.modal
        case Canceled =>
          assert decision == None;
          return;
        case Closed(reason) =>
          assert decision == Some(!reason || connection.status != Active);
          thrown := SaveConnection(values, connection, !reason || connection.status != Active, env);
      } else {
        assert decision == Some(true);
        thrown := SaveConnection(values, connection, true, env);
      }
      assert decision.Some? && State() == cleared.(sent := cleared.sent + if env.schemaRefreshing then [] else [UpdatePayload(connection, values, decision.value)]);
      if thrown.Some? {
        submitError := thrown;
        return;
      }
      saved := true;
      schemaHasBeenRefreshed := false;
    }
  }
}
