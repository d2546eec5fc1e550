/** The statement view (src/App.tsx): the ledger list, the transaction picked for editing
    or deletion, the two modal flags, and the handlers that move between these states.
    Every call to the backend is a parameter saying whether it succeeded. */
module Ledger {
  import opened Wrappers
  import opened Transactions
  import opened JsNumber
  import opened TransactionForm

  // ---------------------------------------------------------------------------
  // Display lookups.

  /** The label shown for a transaction type: empty for a missing or empty type, a
      Portuguese word for the two known types, `undefined` (here `None`) for any other. */
  function TransactionName(typeName: Option<string>): (name: Option<string>)
    ensures name == Some("") <==> typeName.None? || typeName.value == ""
    ensures name.None? <==> typeName.Some? && typeName.value != "" && typeName.value != "Debit" && typeName.value != "Credit"
    ensures typeName == Some("Debit") ==> name == Some("débito")
    ensures typeName == Some("Credit") ==> name == Some("Crédito")
  {
    if typeName.None? || typeName.value == "" then Some("")
    else if typeName.value == "Debit" then Some("débito")
    else if typeName.value == "Credit" then Some("Crédito")
    else None
  }

  /** Every type the backend reports gets a non-empty label, and the two labels differ. */
  lemma TypeLabels(a: TransactionType, b: TransactionType)
    ensures TransactionName(Some(TypeName(a))).Some?
    ensures TransactionName(Some(TypeName(a))).value != ""
    ensures a != b ==> TransactionName(Some(TypeName(a))) != TransactionName(Some(TypeName(b)))
  {
  }

  /** Whether the "- " prefix is written before an amount: only for the type names
      "transfer" and "expense". */
  predicate MinusPrefixShown(typeName: string): (shown: bool)
    ensures shown <==> typeName == "transfer" || typeName == "expense"
  {
    typeName in ["transfer", "expense"]
  }

  /** No transaction of the ledger ever gets the minus prefix, whatever the sign of its
      value: its type name is "Debit" or "Credit". */
  lemma NoMinusPrefix(t: Transaction)
    ensures !MinusPrefixShown(TypeName(t.kind))
  {
  }

  /** The "no transactions" message is shown instead of the list. */
  predicate EmptyMessageShown(ts: seq<Transaction>): (shown: bool)
    ensures shown <==> ts == []
  {
    |ts| == 0
  }

  // ---------------------------------------------------------------------------
  // The list rewrites.

  /** `transactions.filter(t => t.id !== id)`. */
  function Without(ts: seq<Transaction>, id: string): (r: seq<Transaction>)
    ensures |r| <= |ts|
    ensures forall t :: t in r <==> t in ts && t.id != id
  {
    if ts == [] then []
    else (if ts[0].id == id then [] else [ts[0]]) + Without(ts[1..], id)
  }

  /** Filtering distributes over concatenation: the kept records stay in their order. */
  lemma {:induction false} WithoutAppend(a: seq<Transaction>, b: seq<Transaction>, id: string)
    ensures Without(a + b, id) == Without(a, id) + Without(b, id)
  {
    if a != [] {
      assert (a + b)[1..] == a[1..] + b;
      WithoutAppend(a[1..], b, id);
    } else {
      assert a + b == b;
    }
  }

  /** Filtering out an identifier no record has changes nothing. */
  lemma {:induction false} WithoutAbsent(ts: seq<Transaction>, id: string)
    requires forall t :: t in ts ==> t.id != id
    ensures Without(ts, id) == ts
  {
    if ts != [] {
      WithoutAbsent(ts[1..], id);
    }
  }

  /** Deleting the same identifier twice is the same as deleting it once. */
  lemma WithoutIdempotent(ts: seq<Transaction>, id: string)
    ensures Without(Without(ts, id), id) == Without(ts, id)
  {
    WithoutAbsent(Without(ts, id), id);
  }

  /** The number of records that carry an identifier. */
  function CountId(ts: seq<Transaction>, id: string): (n: nat)
    ensures n <= |ts|
  {
    if ts == [] then 0 else (if ts[0].id == id then 1 else 0) + CountId(ts[1..], id)
  }

  /** Exactly the records with that identifier are dropped. */
  lemma {:induction false} WithoutLength(ts: seq<Transaction>, id: string)
    ensures |Without(ts, id)| == |ts| - CountId(ts, id)
  {
    if ts != [] {
      WithoutLength(ts[1..], id);
    }
  }

  lemma {:induction false} UniqueCount(ts: seq<Transaction>, id: string)
    requires UniqueIds(ts)
    ensures CountId(ts, id) <= 1
    ensures CountId(ts, id) == 1 <==> exists t :: t in ts && t.id == id
  {
    if ts != [] {
      UniqueCount(ts[1..], id);
      if ts[0].id == id {
        assert forall t :: t in ts[1..] ==> t.id != id by {
          forall t | t in ts[1..] ensures t.id != id {
            var j :| 0 <= j < |ts[1..]| && ts[1..][j] == t;
            assert ts[j + 1] == t;
          }
        }
      }
    }
  }

  /** Filtering keeps identifiers unique. */
  lemma {:induction false} WithoutKeepsUnique(ts: seq<Transaction>, id: string)
    requires UniqueIds(ts)
    ensures UniqueIds(Without(ts, id))
  {
    if ts != [] {
      WithoutKeepsUnique(ts[1..], id);
      var rest := Without(ts[1..], id);
      if ts[0].id != id {
        forall j | 0 <= j < |rest| ensures rest[j].id != ts[0].id {
          assert rest[j] in ts[1..];
          var k :| 0 <= k < |ts[1..]| && ts[1..][k] == rest[j];
          assert ts[k + 1] == rest[j];
        }
      }
    }
  }

  /** When identifiers are unique, deleting a listed one removes exactly one record, and
      the "no transactions" message appears exactly when that was the last one. */
  lemma DeleteListed(ts: seq<Transaction>, t: Transaction)
    requires UniqueIds(ts) && t in ts
    ensures |Without(ts, t.id)| == |ts| - 1
    ensures EmptyMessageShown(Without(ts, t.id)) <==> |ts| == 1
  {
    WithoutLength(ts, t.id);
    UniqueCount(ts, t.id);
  }

  /** The fields an update writes over a record: `{ type, value, accountId }`. */
  datatype UpdatePayload = UpdatePayload(kind: TransactionType, value: real, accountId: string)

  /** `{ ...t, ...payload }`: the payload's fields replace the record's, the rest stays. */
  function Patched(t: Transaction, p: UpdatePayload): (r: Transaction)
    ensures r.id == t.id && r.date == t.date && r.anexo == t.anexo
    ensures r.kind == p.kind && r.value == p.value && r.accountId == p.accountId
  {
    t.(kind := p.kind, value := p.value, accountId := p.accountId)
  }

  /** `transactions.map(t => t.id === target ? { ...t, ...payload } : t)`; a missing
      target (`undefined`) equals no identifier. */
  function ApplyUpdate(ts: seq<Transaction>, target: Option<string>, p: UpdatePayload): (r: seq<Transaction>)
    ensures |r| == |ts|
  {
    if ts == [] then []
    else [if target == Some(ts[0].id) then Patched(ts[0], p) else ts[0]] + ApplyUpdate(ts[1..], target, p)
  }

  /** Position by position: a record with the target identifier is patched, every other
      record is left as it was; identifiers keep their positions. */
  lemma {:induction false} ApplyUpdateAt(ts: seq<Transaction>, target: Option<string>, p: UpdatePayload, i: nat)
    requires i < |ts|
    ensures ApplyUpdate(ts, target, p)[i] == if target == Some(ts[i].id) then Patched(ts[i], p) else ts[i]
    ensures ApplyUpdate(ts, target, p)[i].id == ts[i].id
  {
    if i > 0 {
      ApplyUpdateAt(ts[1..], target, p, i - 1);
    }
  }

  /** With no transaction being edited the list is left as it was. */
  lemma {:induction false} ApplyUpdateNoTarget(ts: seq<Transaction>, p: UpdatePayload)
    ensures ApplyUpdate(ts, None, p) == ts
  {
    if ts != [] {
      ApplyUpdateNoTarget(ts[1..], p);
    }
  }

  /** Applying the same update twice is the same as applying it once. */
  lemma {:induction false} ApplyUpdateIdempotent(ts: seq<Transaction>, target: Option<string>, p: UpdatePayload)
    ensures ApplyUpdate(ApplyUpdate(ts, target, p), target, p) == ApplyUpdate(ts, target, p)
  {
    var once := ApplyUpdate(ts, target, p);
    forall i | 0 <= i < |ts|
      ensures ApplyUpdate(once, target, p)[i] == once[i]
    {
      ApplyUpdateAt(ts, target, p, i);
      ApplyUpdateAt(once, target, p, i);
    }
  }

  /** An update keeps identifiers unique. */
  lemma {:induction false} ApplyUpdateKeepsUnique(ts: seq<Transaction>, target: Option<string>, p: UpdatePayload)
    requires UniqueIds(ts)
    ensures UniqueIds(ApplyUpdate(ts, target, p))
  {
    forall i | 0 <= i < |ts| {
      ApplyUpdateAt(ts, target, p, i);
    }
  }

  // ---------------------------------------------------------------------------
  // Wiring the edit form to the update handler.

  /** The edit modal's form is opened on the record's type and value; no date is
      passed, so the form falls back to the current date. */
  function EditFormProps(t: Transaction): (p: FormProps)
    ensures p.initialType == Some(t.kind) && p.initialAmount == Some(t.value)
    ensures p.initialDate.None?
  {
    FormProps(Some(t.kind), Some(t.value), None)
  }

  /** The form's `onSubmit` as the view wires it: the amount becomes `value` and the
      view's account is added. A NaN amount is not carried into a request. */
  function EditRequest(s: Submission, accountId: string): (r: Option<TransactionRequest>)
    ensures r.Some? <==> s.amount.Some?
    ensures r.Some? ==> r.value.kind == s.kind && r.value.value == s.amount.value && r.value.accountId == accountId
  {
    match s.amount
    case None => None
    case Some(v) => Some(TransactionRequest(accountId, s.kind, v, None))
  }

  /** The payload built from a request: its type and value, and the view's account. */
  function PayloadOf(req: TransactionRequest, accountId: string): (p: UpdatePayload)
    ensures p.kind == req.kind && p.value == req.value && p.accountId == accountId
  {
    UpdatePayload(req.kind, req.value, accountId)
  }

  /** Writing a record's own type, value and account back over it leaves the list as it
      was, when identifiers are unique. */
  lemma {:induction false} RewriteOwnValues(ts: seq<Transaction>, t: Transaction)
    requires UniqueIds(ts) && t in ts
    ensures ApplyUpdate(ts, Some(t.id), UpdatePayload(t.kind, t.value, t.accountId)) == ts
  {
    var p := UpdatePayload(t.kind, t.value, t.accountId);
    forall i | 0 <= i < |ts|
      ensures ApplyUpdate(ts, Some(t.id), p)[i] == ts[i]
    {
      ApplyUpdateAt(ts, Some(t.id), p, i);
      if ts[i].id == t.id {
        var j :| 0 <= j < |ts| && ts[j] == t;
        assert i == j;
      }
    }
  }

  /** The untouched edit form submits the record's own value. */
  lemma UntouchedEditRequest(t: Transaction, accountId: string, today: string)
    requires IsCents(t.value)
    ensures var i := Resolve(EditFormProps(t), today);
      EditRequest(Submission(t.kind, ParseFloat(NumberToString(i.amount)), i.date), accountId)
        == Some(TransactionRequest(accountId, t.kind, t.value, None))
  {
    ParseNumberToString(t.value, "");
    assert NumberToString(t.value) + "" == NumberToString(t.value);
  }

  /** Saving an edit form left untouched writes the record's own type and value back:
      the form is enabled when the value is positive, the request carries that value,
      and when the record already belongs to the view's account the list is unchanged. */
  lemma SaveUntouchedEdit(ts: seq<Transaction>, t: Transaction, accountId: string, today: string)
    requires UniqueIds(ts) && t in ts && t.accountId == accountId
    requires IsCents(t.value)
    ensures var i := Resolve(EditFormProps(t), today);
      var amount := NumberToString(i.amount);
      (!Disabled(i.kind, amount) <==> t.value > 0.0) &&
      EditRequest(Submission(t.kind, ParseFloat(amount), i.date), accountId)
        == Some(TransactionRequest(accountId, t.kind, t.value, None)) &&
      ApplyUpdate(ts, Some(t.id), UpdatePayload(t.kind, t.value, accountId)) == ts
  {
    EnabledIffPositive(t.kind, t.value);
    UntouchedEditRequest(t, accountId, today);
    RewriteOwnValues(ts, t);
  }

  // ---------------------------------------------------------------------------
  // The view's state and handlers.

  class LedgerView {
    const accountId: string
    var transactions: seq<Transaction>
    var editing: Option<Transaction>
    var editOpen: bool
    var deleteOpen: bool

    /** A freshly mounted view: an empty list, nothing picked, both modals closed. */
    constructor(accountId: string)
      ensures this.accountId == accountId
      ensures transactions == [] && editing == None && !editOpen && !deleteOpen
    {
      this.accountId := accountId;
      transactions := [];
      editing := None;
      editOpen := false;
      deleteOpen := false;
    }

    /** The load effect. With an account it fetches the statement (`None` when the request
        fails) and replaces the list wholesale; without an account nothing is fetched. */
    method Load(fetched: Option<seq<Transaction>>)
      modifies this`transactions
      ensures transactions == if accountId != "" && fetched.Some? then fetched.value else old(transactions)
    {
      if accountId != "" {
        match fetched {
          case None =>
          case Some(ts) => transactions := ts;
        }
      }
    }

    /** The edit icon of a row: pick the record and open the edit modal. */
    method OpenEditModal(t: Transaction)
      modifies this`editing, this`editOpen
      ensures editing == Some(t) && editOpen
    {
      editing := Some(t);
      editOpen := true;
    }

    /** The delete icon of a row: pick the record and open the delete modal. */
    method OpenDeleteModal(t: Transaction)
      modifies this`editing, this`deleteOpen
      ensures editing == Some(t) && deleteOpen
    {
      editing := Some(t);
      deleteOpen := true;
    }

    /** Confirming a delete. The backend call comes first; when it fails nothing has
        changed. When it succeeds every record with that identifier is filtered out,
        nothing is picked any more and the delete modal closes. */
    method HandleDelete(t: Transaction, success: bool)
      modifies this`transactions, this`editing, this`deleteOpen
      ensures success ==> transactions == Without(old(transactions), t.id) && editing == None && !deleteOpen
      ensures !success ==> transactions == old(transactions) && editing == old(editing) && deleteOpen == old(deleteOpen)
    {
      if !success {
        return;
      }
      transactions := Without(transactions, t.id);
      editing := None;
      deleteOpen := false;
    }

    /** Saving the edit form. The list is rewritten before the backend call, so it stays
        rewritten when the call fails; only on success is the pick cleared and the edit
        modal closed. */
    method HandleUpdate(req: TransactionRequest, success: bool)
      modifies this`transactions, this`editing, this`editOpen
      ensures transactions == ApplyUpdate(old(transactions), IdOf(old(editing)), PayloadOf(req, accountId))
      ensures editing == if success then None else old(editing)
      ensures editOpen == if success then false else old(editOpen)
    {
      var payload := PayloadOf(req, accountId);
      transactions := ApplyUpdate(transactions, IdOf(editing), payload);
      if !success {
        return;
      }
      editing := None;
      editOpen := false;
    }

    /** The edit modal's close button. */
    method CloseEditModal()
      modifies this`editOpen
      ensures !editOpen
    {
      editOpen := false;
    }

    /** The delete modal's close button and its Cancel button. */
    method CloseDeleteModal()
      modifies this`deleteOpen
      ensures !deleteOpen
    {
      deleteOpen := false;
    }
  }

  /** `editingTransaction?.id`. */
  function IdOf(editing: Option<Transaction>): (id: Option<string>)
    ensures id.Some? <==> editing.Some?
    ensures id.Some? ==> id.value == editing.value.id
  {
    match editing
    case None => None
    case Some(t) => Some(t.id)
  }
}
