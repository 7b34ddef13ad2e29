/** The collection page's state (magi/src/pages/index.tsx, `CollectionExample`)
    as a pure transition function over its events: the two input fields,
    submit, the confirm dialog, the delayed part of submit, and the server's
    `row_update` / `row_count` messages.

    The dataset is a map from row id to row; a row maps column names to cell
    values of an arbitrary type `V`. */
module Client {
  import ColumnSpec

  type Row<V> = map<string, V>
  type Dataset<V> = map<string, Row<V>>

  /** `row_update`: an existing row is shallow-merged with the output (its keys
      win), a new id gets the output as its row. */
  function RowUpdate<V>(ds: Dataset<V>, id: string, output: Row<V>): (r: Dataset<V>)
    ensures r.Keys == ds.Keys + {id}
    ensures forall other | other in ds && other != id :: r[other] == ds[other]
    ensures id in ds ==> r[id].Keys == ds[id].Keys + output.Keys
    ensures id !in ds ==> r[id] == output
    ensures forall k | k in output :: r[id][k] == output[k]
    ensures id in ds ==> forall k | k in ds[id] && k !in output :: r[id][k] == ds[id][k]
  {
    if id in ds then ds[id := ds[id] + output] else ds[id := output]
  }

  /** Delivering the same update twice has the effect of delivering it once. */
  lemma {:induction false} RowUpdateIdempotent<V>(ds: Dataset<V>, id: string, output: Row<V>)
    ensures RowUpdate(RowUpdate(ds, id, output), id, output) == RowUpdate(ds, id, output)
  {
    var once := RowUpdate(ds, id, output);
    var twice := RowUpdate(once, id, output);
    assert twice[id] == once[id];
  }

  /** Updates of different rows do not interfere, so their order does not matter. */
  lemma {:induction false} RowUpdatesCommute<V>(ds: Dataset<V>, a: string, x: Row<V>, b: string, y: Row<V>)
    requires a != b
    ensures RowUpdate(RowUpdate(ds, a, x), b, y) == RowUpdate(RowUpdate(ds, b, y), a, x)
  {
    var l := RowUpdate(RowUpdate(ds, a, x), b, y);
    var r := RowUpdate(RowUpdate(ds, b, y), a, x);
    assert l.Keys == r.Keys;
    forall id | id in l ensures l[id] == r[id] {
      if id != a && id != b {
        assert l[id] == ds[id];
      }
    }
  }

  /** Two updates of one row merge to a single update with the later keys winning. */
  lemma {:induction false} RowUpdatesCompose<V>(ds: Dataset<V>, id: string, x: Row<V>, y: Row<V>)
    ensures RowUpdate(RowUpdate(ds, id, x), id, y) == RowUpdate(ds, id, x + y)
  {
    var l := RowUpdate(RowUpdate(ds, id, x), id, y);
    var r := RowUpdate(ds, id, x + y);
    assert l[id] == r[id];
  }

  datatype Message<V> = RowUpdateMsg(id: string, output: Row<V>) | RowCountMsg(total: int) | OtherMsg

  datatype Event<V> =
    | TopicEdited(topic: string)
    | ColumnsEdited(value: string)
    | Submitted
    | SubmitTimerFired      // the `setTimeout(..., 1000)` callback of submit
    | AlertCancelled
    | AlertConfirmed
    | Received(msg: Message<V>)

  datatype Ui<V> = Ui(
    scrapeTopic: string,
    columns: string,
    dataset: Dataset<V>,
    alertOpen: bool,
    fadeOut: bool,
    progressVisible: bool,
    totalRows: int,
    showCurateButton: bool,
    showDetails: bool,
    numRows: nat,
    numColumns: nat)

  /** The state after an event, and whether the event opened a session socket. */
  datatype Stepped<V> = Stepped(ui: Ui<V>, connects: bool)

  /** `datasetArray.length > 0`: the inputs are locked behind the dialog. */
  predicate Gated<V>(ui: Ui<V>) {
    |ui.dataset| > 0
  }

  /** The events a user makes on the form itself. */
  predicate IsInput<V>(e: Event<V>) {
    e.TopicEdited? || e.ColumnsEdited? || e.Submitted?
  }

  function Step<V>(ui: Ui<V>, e: Event<V>): (r: Stepped<V>)
    ensures r.connects <==> e.Submitted? && !Gated(ui)
    ensures Gated(ui) && IsInput(e) ==> r.ui == ui.(alertOpen := true)
    ensures e.AlertConfirmed? ==> r.ui.dataset == map[] && !r.ui.alertOpen
    ensures !e.AlertConfirmed? ==> ui.dataset.Keys <= r.ui.dataset.Keys
    ensures !IsInput(e) ==>
      r.ui.scrapeTopic == ui.scrapeTopic && r.ui.columns == ui.columns
      && r.ui.numRows == ui.numRows && r.ui.numColumns == ui.numColumns
  {
    match e
    case TopicEdited(v) =>
      if Gated(ui) then Stepped(ui.(alertOpen := true), false)
      else Stepped(ui.(scrapeTopic := v, showCurateButton := true), false)
    case ColumnsEdited(v) =>
      if Gated(ui) then Stepped(ui.(alertOpen := true), false)
      else
        Stepped(ui.(columns := v, showCurateButton := true,
                    showDetails := ui.showDetails || |v| > 0,
                    numRows := ColumnSpec.RowCount(v),
                    numColumns := ColumnSpec.ColumnCount(v)), false)
    case Submitted =>
      if Gated(ui) then Stepped(ui.(alertOpen := true), false)
      else Stepped(ui.(fadeOut := true, showCurateButton := false), true)
    case SubmitTimerFired =>
      Stepped(ui.(showDetails := false, progressVisible := true), false)
    case AlertCancelled =>
      Stepped(ui.(alertOpen := false), false)
    case AlertConfirmed =>
      Stepped(ui.(dataset := map[], alertOpen := false, fadeOut := false,
                  showDetails := true, progressVisible := false), false)
    case Received(m) =>
      match m
      case RowUpdateMsg(id, output) => Stepped(ui.(dataset := RowUpdate(ui.dataset, id, output)), false)
      case RowCountMsg(n) => Stepped(ui.(totalRows := n), false)
      case OtherMsg => Stepped(ui, false)
  }

  /** An accepted edit of the column field recomputes both counts from the new
      value alone. */
  lemma {:induction false} ColumnsEditRecounts<V>(ui: Ui<V>, v: string)
    requires !Gated(ui)
    ensures Step(ui, ColumnsEdited(v)).ui.columns == v
    ensures Step(ui, ColumnsEdited(v)).ui.numRows == ColumnSpec.RowCount(v)
    ensures Step(ui, ColumnsEdited(v)).ui.numColumns == |ColumnSpec.Columns(v)|
  {
  }

  /** The states after each event in turn, and whether any of them opened a socket. */
  function Run<V>(ui: Ui<V>, es: seq<Event<V>>): (r: Stepped<V>)
    decreases |es|
  {
    if |es| == 0 then Stepped(ui, false)
    else
      var first := Step(ui, es[0]);
      var rest := Run(first.ui, es[1..]);
      Stepped(rest.ui, first.connects || rest.connects)
  }

  /** While rows are on screen and the user does not confirm the dialog, no
      edit or submit gets through: the inputs and counts stay as they are, no
      socket is opened, and the dataset keeps every row it has. */
  lemma {:induction false} GatedInputsFrozen<V>(ui: Ui<V>, es: seq<Event<V>>)
    requires Gated(ui)
    requires forall i | 0 <= i < |es| :: !es[i].AlertConfirmed?
    ensures var r := Run(ui, es);
      !r.connects
      && r.ui.scrapeTopic == ui.scrapeTopic && r.ui.columns == ui.columns
      && r.ui.numRows == ui.numRows && r.ui.numColumns == ui.numColumns
      && ui.dataset.Keys <= r.ui.dataset.Keys
    decreases |es|
  {
    if |es| > 0 {
      var first := Step(ui, es[0]);
      assert ui.dataset.Keys <= first.ui.dataset.Keys;
      assert Gated(first.ui);
      GatedInputsFrozen(first.ui, es[1..]);
    }
  }

  /** Confirming the dialog unlocks the form: the next column edit is taken. */
  lemma {:induction false} ConfirmUnlocks<V>(ui: Ui<V>, v: string)
    ensures var cleared := Step(ui, AlertConfirmed).ui;
      !Gated(cleared) && Step(cleared, ColumnsEdited(v)).ui.columns == v
  {
  }
}
