/** The dashboard chart (src/components/Piechart.tsx): a fold that splits the ledger's
    values into a debit total (the negative ones) and a credit total (the others), and the
    two chart segments built from them. */
module Piechart {
  import opened Wrappers
  import opened Transactions
  import opened JsNumber

  /** The fold's accumulator `{ debit, credit }` as a value. */
  datatype Totals = Totals(debit: real, credit: real)

  /** The sum of the negative values, added left to right. */
  function Debits(ts: seq<Transaction>): (d: real)
    ensures d <= 0.0
  {
    if ts == [] then 0.0
    else Debits(ts[..|ts| - 1]) + (if ts[|ts| - 1].value < 0.0 then ts[|ts| - 1].value else 0.0)
  }

  /** The sum of the values that are not negative, added left to right. */
  function Credits(ts: seq<Transaction>): (c: real)
    ensures c >= 0.0
  {
    if ts == [] then 0.0
    else Credits(ts[..|ts| - 1]) + (if ts[|ts| - 1].value < 0.0 then 0.0 else ts[|ts| - 1].value)
  }

  /** The sum of all values, independent of their sign. */
  function Total(ts: seq<Transaction>): real
  {
    if ts == [] then 0.0 else ts[0].value + Total(ts[1..])
  }

  /** The sum of the magnitudes of all values. */
  function AbsTotal(ts: seq<Transaction>): (a: real)
    ensures a >= 0.0
  {
    if ts == [] then 0.0 else (if ts[0].value < 0.0 then -ts[0].value else ts[0].value) + AbsTotal(ts[1..])
  }

  /** Each total is additive over a split of the list. */
  lemma {:induction false} SplitAppend(a: seq<Transaction>, b: seq<Transaction>)
    ensures Debits(a + b) == Debits(a) + Debits(b)
    ensures Credits(a + b) == Credits(a) + Credits(b)
  {
    if b != [] {
      var ab := a + b;
      assert ab[..|ab| - 1] == a + b[..|b| - 1];
      SplitAppend(a, b[..|b| - 1]);
    } else {
      assert a + b == a;
    }
  }

  /** Debits and credits add up to the total, and their difference to the total of magnitudes. */
  lemma {:induction false} SplitCoversAll(ts: seq<Transaction>)
    ensures Debits(ts) + Credits(ts) == Total(ts)
    ensures Credits(ts) - Debits(ts) == AbsTotal(ts)
  {
    if ts != [] {
      SplitCoversAll(ts[1..]);
      SplitAppend([ts[0]], ts[1..]);
      assert [ts[0]] + ts[1..] == ts;
      assert [ts[0]][..0] == [];
    }
  }

  /** The fold's accumulator, updated in place by each step. */
  class Accumulator {
    var debit: real
    var credit: real

    constructor()
      ensures debit == 0.0 && credit == 0.0
    {
      debit := 0.0;
      credit := 0.0;
    }

    /** One step of the fold: a negative value goes to the debit total, any other to the
        credit total; the other total is left alone. */
    method Add(v: real)
      modifies this
      ensures v < 0.0 ==> debit == old(debit) + v && credit == old(credit)
      ensures v >= 0.0 ==> credit == old(credit) + v && debit == old(debit)
    {
      if v < 0.0 {
        debit := debit + v;
      } else {
        credit := credit + v;
      }
    }
  }

  /** `transactions.reduce(...)`: the debit total is the sum of the negative values, the
      credit total the sum of the others; between them they account for every value. */
  method Group(ts: seq<Transaction>) returns (g: Totals)
    ensures g.debit == Debits(ts) && g.credit == Credits(ts)
    ensures g.debit <= 0.0 <= g.credit
    ensures g.debit + g.credit == Total(ts)
  {
    var acc := new Accumulator();
    var i := 0;
    while i < |ts|
      invariant 0 <= i <= |ts|
      invariant acc.debit == Debits(ts[..i]) && acc.credit == Credits(ts[..i])
    {
      assert ts[..i + 1][..i] == ts[..i];
      acc.Add(ts[i].value);
      i := i + 1;
    }
    assert ts[..|ts|] == ts;
    g := Totals(acc.debit, acc.credit);
    SplitCoversAll(ts);
  }

  /** One slice of the chart. */
  datatype Segment = Segment(id: nat, value: real, caption: string)

  const DebitPrefix: string := "Débito (R$ "
  const CreditPrefix: string := "Crédito (R$ "

  /** The two slices: the debit total's magnitude and the credit total. While loading
      both captions are "..."; otherwise each embeds its total as `toString` writes it. */
  function Segments(g: Totals, loading: bool): (s: seq<Segment>)
    ensures |s| == 2 && s[0].id == 0 && s[1].id == 1
    ensures s[0].value >= 0.0 && (s[0].value == g.debit || s[0].value == -g.debit)
    ensures s[1].value == g.credit
    ensures loading ==> s[0].caption == "..." && s[1].caption == "..."
    ensures !loading ==> s[0].caption == DebitPrefix + NumberToString(g.debit) + ")"
    ensures !loading ==> s[1].caption == CreditPrefix + NumberToString(g.credit) + ")"
  {
    [Segment(0, if g.debit < 0.0 then -g.debit else g.debit,
             if loading then "..." else DebitPrefix + NumberToString(g.debit) + ")"),
     Segment(1, g.credit,
             if loading then "..." else CreditPrefix + NumberToString(g.credit) + ")")]
  }

  /** The chart for a ledger: two non-negative slices that together cover the magnitude
      of every value; once loaded, the captions differ from the placeholder. */
  method Chart(ts: seq<Transaction>, loading: bool) returns (s: seq<Segment>)
    ensures |s| == 2
    ensures s[0].value == -Debits(ts) && s[1].value == Credits(ts)
    ensures s[0].value >= 0.0 && s[1].value >= 0.0
    ensures s[0].value + s[1].value == AbsTotal(ts)
    ensures !loading ==> s[0].caption != "..." && s[1].caption != "..."
  {
    var g := Group(ts);
    s := Segments(g, loading);
    SplitCoversAll(ts);
    if !loading {
      assert s[0].caption[0] == 'D';
      assert s[1].caption[0] == 'C';
    }
  }

  // ---------------------------------------------------------------------------
  // Captions read back.

  /** When every value is in cents, so are both totals. */
  lemma {:induction false} TotalsInCents(ts: seq<Transaction>)
    requires forall t :: t in ts ==> IsCents(t.value)
    ensures IsCents(Debits(ts)) && IsCents(Credits(ts))
  {
    if ts == [] {
      assert (0.0 * 100.0).Floor == 0;
    } else {
      var init := ts[..|ts| - 1];
      assert forall t :: t in init ==> t in ts;
      TotalsInCents(init);
      var v := ts[|ts| - 1].value;
      assert IsCents(v);
      assert IsCents(0.0) by {
        assert (0.0 * 100.0).Floor == 0;
      }
      CentsSum(Debits(init), if v < 0.0 then v else 0.0);
      CentsSum(Credits(init), if v < 0.0 then 0.0 else v);
    }
  }

  /** The number in a caption reads back as the amount written into it. */
  lemma CaptionReadBack(prefix: string, x: real)
    requires IsCents(x)
    ensures ParseFloat((prefix + NumberToString(x) + ")")[|prefix|..]) == Some(x)
  {
    ParseNumberToString(x, ")");
    assert (prefix + NumberToString(x) + ")")[|prefix|..] == NumberToString(x) + ")";
  }

  /** Once loaded, the number in each caption reads back as the total it shows. */
  lemma CaptionsReadBack(ts: seq<Transaction>)
    requires forall t :: t in ts ==> IsCents(t.value)
    ensures var s := Segments(Totals(Debits(ts), Credits(ts)), false);
      ParseFloat(s[0].caption[|DebitPrefix|..]) == Some(Debits(ts)) &&
      ParseFloat(s[1].caption[|CreditPrefix|..]) == Some(Credits(ts))
  {
    TotalsInCents(ts);
    CaptionReadBack(DebitPrefix, Debits(ts));
    CaptionReadBack(CreditPrefix, Credits(ts));
  }
}
