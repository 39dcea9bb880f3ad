/** The stock table `stocks_data` (calliope.py:476): an ordered mapping from
    item name to quantity, loaded from a JSON snapshot and written back after
    every change.  The first part gives Python's dictionary semantics on a
    sequence of entries (assignment keeps an existing key in place and appends
    a new one; `pop` removes a key and keeps the order of the rest); the
    class `StockTable` then models the four places that change the table. */
module Stocks {
  import opened Wrappers
  import opened Text

  datatype Entry = Entry(name: string, quantity: int)

  /** An ordered dictionary: the names in insertion order and the quantity
      of each. */
  datatype Table = Table(order: seq<string>, stock: map<string, int>)

  predicate Distinct(ns: seq<string>) {
    forall i, j | 0 <= i < j < |ns| :: ns[i] != ns[j]
  }

  /** The dictionary invariant: every name once, and exactly the names that
      have a quantity. */
  ghost predicate WellFormed(t: Table) {
    Distinct(t.order) && forall k :: k in t.stock <==> k in t.order
  }

  /** The entries in order, as `json.dump` writes them. */
  function Items(t: Table): (es: seq<Entry>)
    requires WellFormed(t)
    ensures |es| == |t.order|
    ensures forall i | 0 <= i < |es| :: es[i].name == t.order[i] && es[i].quantity == t.stock[t.order[i]]
  {
    seq(|t.order|, i requires 0 <= i < |t.order| => Entry(t.order[i], t.stock[t.order[i]]))
  }

  /** The position of the first occurrence of `k`. */
  function FirstIndex(ns: seq<string>, k: string): (i: nat)
    requires k in ns
    ensures i < |ns| && ns[i] == k && k !in ns[..i]
  {
    if ns[0] == k then 0 else 1 + FirstIndex(ns[1..], k)
  }

  /** `ns` with its first occurrence of `k` taken out. */
  function Erase(ns: seq<string>, k: string): (r: seq<string>)
    ensures k !in ns ==> r == ns
    ensures |r| == if k in ns then |ns| - 1 else |ns|
    ensures Distinct(ns) ==> Distinct(r) && forall x :: x in r <==> x in ns && x != k
  {
    if ns == [] then []
    else if ns[0] == k then
      assert Distinct(ns) ==> k !in ns[1..];
      ns[1..]
    else
      var r := [ns[0]] + Erase(ns[1..], k);
      assert Distinct(ns) ==> Distinct(ns[1..]) && ns[0] !in ns[1..];
      r
  }

  /** Erasing cuts out exactly the first occurrence: the names before it and
      the names after it stay, in their order. */
  lemma {:induction false} EraseKeepsOrder(ns: seq<string>, k: string)
    requires k in ns
    ensures Erase(ns, k) == ns[..FirstIndex(ns, k)] + ns[FirstIndex(ns, k) + 1..]
  {
    if ns[0] != k {
      EraseKeepsOrder(ns[1..], k);
      var i := FirstIndex(ns[1..], k);
      assert ns[..i + 1] == [ns[0]] + ns[1..][..i];
      assert ns[i + 2..] == ns[1..][i + 1..];
    }
  }

  /** Python `d[k] = v`: an existing name keeps its place, a new one is
      appended. */
  function Put(t: Table, k: string, v: int): (r: Table)
    requires WellFormed(t)
    ensures WellFormed(r)
  {
    Table(if k in t.stock then t.order else t.order + [k], t.stock[k := v])
  }

  /** Python `d.pop(k)` on a present key (the callers test for it). */
  function Pop(t: Table, k: string): (r: Table)
    requires WellFormed(t)
    ensures WellFormed(r)
  {
    Table(Erase(t.order, k), t.stock - {k})
  }

  /** `Put` leaves every other name's quantity alone and keeps the order or
      appends, as Python dictionaries do. */
  lemma PutSpec(t: Table, k: string, v: int)
    requires WellFormed(t)
    ensures Put(t, k, v).stock[k] == v
    ensures forall j | j != k :: (j in Put(t, k, v).stock <==> j in t.stock)
    ensures forall j | j != k && j in t.stock :: Put(t, k, v).stock[j] == t.stock[j]
    ensures k in t.stock ==> Put(t, k, v).order == t.order
    ensures k !in t.stock ==> Put(t, k, v).order == t.order + [k]
  {
  }

  /** The JSON object's pairs in order, as `OrderedDict` builds them: a
      repeated name keeps its first place and its last value. */
  function FromPairs(pairs: seq<Entry>): (t: Table)
    ensures WellFormed(t)
    ensures forall k :: k in t.stock <==> exists i | 0 <= i < |pairs| :: pairs[i].name == k
    ensures pairs != [] ==> t.stock[pairs[|pairs| - 1].name] == pairs[|pairs| - 1].quantity
  {
    if pairs == [] then Table([], map[])
    else
      var last := pairs[|pairs| - 1];
      var front := pairs[..|pairs| - 1];
      assert forall i | 0 <= i < |front| :: front[i] == pairs[i];
      Put(FromPairs(front), last.name, last.quantity)
  }

  /** Each name holds the quantity of its last pair. */
  ghost predicate LastValueWins(pairs: seq<Entry>, t: Table) {
    forall k | k in t.stock ::
      exists i | 0 <= i < |pairs| && pairs[i].name == k ::
        t.stock[k] == pairs[i].quantity && forall j | i < j < |pairs| :: pairs[j].name != k
  }

  /** The names stand in the order of their first occurrence: every pair
      for a later name comes after some pair for each earlier name. */
  ghost predicate FirstOccurrenceOrder(pairs: seq<Entry>, t: Table) {
    forall a, b, i | 0 <= a < b < |t.order| && 0 <= i < |pairs| && pairs[i].name == t.order[b] ::
      exists j | 0 <= j < i :: pairs[j].name == t.order[a]
  }

  /** A repeated name keeps the value of its last pair, as `OrderedDict`
      does when built from the JSON pairs. */
  lemma {:induction false} FromPairsLastValue(pairs: seq<Entry>)
    ensures LastValueWins(pairs, FromPairs(pairs))
    decreases |pairs|
  {
    if pairs != [] {
      var front, last := pairs[..|pairs| - 1], pairs[|pairs| - 1];
      assert pairs == front + [last];
      FromPairsLastValue(front);
      LastValueStep(front, last);
    }
  }

  lemma LastValueStep(front: seq<Entry>, last: Entry)
    requires LastValueWins(front, FromPairs(front))
    ensures LastValueWins(front + [last], Put(FromPairs(front), last.name, last.quantity))
  {
    var pairs, before := front + [last], FromPairs(front);
    var t := Put(before, last.name, last.quantity);
    assert t.stock == before.stock[last.name := last.quantity];
    forall k | k in t.stock
      ensures exists i | 0 <= i < |pairs| && pairs[i].name == k ::
                t.stock[k] == pairs[i].quantity && forall j | i < j < |pairs| :: pairs[j].name != k
    {
      if k == last.name {
        assert pairs[|front|] == last && t.stock[k] == last.quantity;
      } else {
        assert k in before.stock;
        var i :| 0 <= i < |front| && front[i].name == k && before.stock[k] == front[i].quantity
                 && forall j | i < j < |front| :: front[j].name != k;
        assert pairs[i] == front[i] && t.stock[k] == before.stock[k];
        forall j | i < j < |pairs| ensures pairs[j].name != k {
          if j < |front| {
            assert pairs[j] == front[j];
          } else {
            assert pairs[j] == last;
          }
        }
      }
    }
  }

  /** A repeated name keeps the place of its first pair. */
  lemma {:induction false} FromPairsFirstOrder(pairs: seq<Entry>)
    ensures FirstOccurrenceOrder(pairs, FromPairs(pairs))
    decreases |pairs|
  {
    if pairs != [] {
      var front, last := pairs[..|pairs| - 1], pairs[|pairs| - 1];
      assert pairs == front + [last];
      FromPairsFirstOrder(front);
      var t := Put(FromPairs(front), last.name, last.quantity);
      forall a, b, i | 0 <= a < b < |t.order| && 0 <= i < |pairs| && pairs[i].name == t.order[b]
        ensures exists j | 0 <= j < i :: pairs[j].name == t.order[a]
      {
        FirstOrderStep(front, last, a, b, i);
      }
    }
  }

  lemma FirstOrderStep(front: seq<Entry>, last: Entry, a: int, b: int, i: int)
    requires FirstOccurrenceOrder(front, FromPairs(front))
    requires var t := Put(FromPairs(front), last.name, last.quantity);
             0 <= a < b < |t.order| && 0 <= i <= |front| && (front + [last])[i].name == t.order[b]
    ensures exists j | 0 <= j < i :: (front + [last])[j].name == Put(FromPairs(front), last.name, last.quantity).order[a]
  {
    var pairs, before := front + [last], FromPairs(front);
    var t := Put(before, last.name, last.quantity);
    if i < |front| {
      assert pairs[i] == front[i];
      assert front[i].name in before.stock;
      assert b < |before.order|;
      var j :| 0 <= j < i && front[j].name == before.order[a];
      assert pairs[j] == front[j];
    } else {
      assert t.order[a] in before.stock;
      var j :| 0 <= j < |front| && front[j].name == t.order[a];
      assert pairs[j] == front[j];
    }
  }

  /** Loading what `saveJson` wrote (calliope.py:29-38) gives back the same
      table: the same names, in the same order, with the same quantities. */
  lemma {:induction false} SaveLoadRoundTrip(t: Table)
    requires WellFormed(t)
    ensures FromPairs(Items(t)) == t
    decreases |t.order|
  {
    if |t.order| == 0 {
      assert t.stock == map[];
    } else {
      var front := DropLast(t);
      var es := Items(t);
      assert es[..|es| - 1] == Items(front);
      SaveLoadRoundTrip(front);
    }
  }

  /** The table without its last name, which `Put` appends back. */
  function DropLast(t: Table): (front: Table)
    requires WellFormed(t) && |t.order| > 0
    ensures WellFormed(front) && |front.order| == |t.order| - 1
    ensures forall i | 0 <= i < |front.order| :: front.order[i] == t.order[i] && front.stock[front.order[i]] == t.stock[t.order[i]]
    ensures Put(front, t.order[|t.order| - 1], t.stock[t.order[|t.order| - 1]]) == t
  {
    var last := t.order[|t.order| - 1];
    var front := Table(t.order[..|t.order| - 1], t.stock - {last});
    assert t.order == front.order + [last];
    assert (t.stock - {last})[last := t.stock[last]] == t.stock;
    front
  }

  /** What `int(stocks_data[item]) - int(quantity)` stores (calliope.py:589):
      `None` is the KeyError of a missing item.  There is no lower bound. */
  function Deduct(t: Table, item: string, quantity: nat): (r: Option<Table>)
    requires WellFormed(t)
    ensures r.Some? <==> item in t.stock
    ensures r.Some? ==> WellFormed(r.value) && r.value.order == t.order
    ensures r.Some? ==> r.value.stock == t.stock[item := t.stock[item] - quantity]
  {
    if item in t.stock then Some(Put(t, item, t.stock[item] - quantity)) else None
  }

  /** Scenario: five in stock, two deductions of three each; the second is
      not refused and leaves the stock at minus one. */
  lemma DeductHasNoFloor()
    ensures var t := Table(["Nitro Boost"], map["Nitro Boost" := 5]);
            && Deduct(t, "Nitro Boost", 3) == Some(Table(["Nitro Boost"], map["Nitro Boost" := 2]))
            && Deduct(Deduct(t, "Nitro Boost", 3).value, "Nitro Boost", 3)
               == Some(Table(["Nitro Boost"], map["Nitro Boost" := -1]))
  {
    var t := Table(["Nitro Boost"], map["Nitro Boost" := 5]);
    assert map["Nitro Boost" := 5]["Nitro Boost" := 2] == map["Nitro Boost" := 2];
    assert map["Nitro Boost" := 2]["Nitro Boost" := -1] == map["Nitro Boost" := -1];
  }

  /** `stocks_data[new] = stocks_data.pop(old)` on a present `old`: the old
      name is gone, the new one holds the old quantity (in the new name's
      place if it already existed, else at the end) and nothing else moves. */
  function Rename(t: Table, oldName: string, newName: string): (r: Table)
    requires WellFormed(t)
    requires oldName in t.stock
    ensures WellFormed(r)
    ensures r.stock == (t.stock - {oldName})[newName := t.stock[oldName]]
    ensures var rest := Erase(t.order, oldName);
            r.order == if newName in rest then rest else rest + [newName]
  {
    Put(Pop(t, oldName), newName, t.stock[oldName])
  }

  // ---------------------------------------------------------------------
  // Item buttons (calliope.py:244-256 and the three copies of that loop)

  const OutOfStock := "Out of Stock"

  /** The label the item buttons carry: `f"{name} ({quantity})"`, with the
      quantity replaced by "Out of Stock" when it is not positive. */
  function Label(name: string, quantity: int): (l: string)
    ensures StartsWith(l, name + " (") && EndsWith(l, ")")
  {
    name + " (" + (if quantity <= 0 then OutOfStock else IntToString(quantity)) + ")"
  }

  datatype Button = Button(text: string, customId: string)

  /** One button per entry, in the table's order, identified by the name. */
  function Buttons(t: Table): (bs: seq<Button>)
    requires WellFormed(t)
    ensures |bs| == |t.order|
    ensures forall i | 0 <= i < |bs| :: bs[i].customId == t.order[i]
    ensures forall i | 0 <= i < |bs| :: bs[i].text == Label(t.order[i], t.stock[t.order[i]])
  {
    seq(|t.order|, i requires 0 <= i < |t.order| => Button(Label(t.order[i], t.stock[t.order[i]]), t.order[i]))
  }

  /** A label shows "Out of Stock" exactly for a quantity that is not
      positive, and otherwise shows the quantity in decimal. */
  lemma LabelShowsStock(name: string, quantity: int)
    ensures Label(name, quantity) == name + " (" + OutOfStock + ")" <==> quantity <= 0
    ensures quantity > 0 ==> Label(name, quantity) == name + " (" + NatToDecimal(quantity) + ")"
  {
    if quantity > 0 {
      var digits := NatToDecimal(quantity);
      var shown, soldOut := name + " (" + digits + ")", name + " (" + OutOfStock + ")";
      assert shown[|name| + 2] == digits[0];
      assert soldOut[|name| + 2] == 'O';
    }
  }

  /** Two buttons for the same name with positive quantities have the same
      label only if they show the same quantity. */
  lemma LabelDeterminesQuantity(name: string, p: int, q: int)
    requires p > 0 && q > 0
    requires Label(name, p) == Label(name, q)
    ensures p == q
  {
    var a, b := NatToDecimal(p), NatToDecimal(q);
    LabelShowsStock(name, p);
    LabelShowsStock(name, q);
    var la, lb := name + " (" + a + ")", name + " (" + b + ")";
    assert |a| == |b|;
    assert a == la[|name| + 2..|la| - 1];
    assert b == lb[|name| + 2..|lb| - 1];
    DecimalInjective(p, q);
  }

  // ---------------------------------------------------------------------
  // Clicking an item button reads the live table (calliope.py:255-258,
  // 326-331): the view holds the global dictionary itself, not a copy.

  datatype Pick = Missing | SoldOut | Available(quantity: int)

  function PickItem(t: Table, item: string): (p: Pick)
    ensures p == Missing <==> item !in t.stock
    ensures p == SoldOut <==> item in t.stock && t.stock[item] <= 0
    ensures p.Available? ==> item in t.stock && p.quantity == t.stock[item] && p.quantity > 0
  {
    if item !in t.stock then Missing
    else if t.stock[item] <= 0 then SoldOut
    else Available(t.stock[item])
  }

  /** The button a user clicks says "Out of Stock" exactly when the click is
      turned away as out of stock. */
  lemma ButtonAgreesWithPick(t: Table, i: int)
    requires WellFormed(t)
    requires 0 <= i < |t.order|
    ensures Buttons(t)[i].text == t.order[i] + " (" + OutOfStock + ")" <==> PickItem(t, t.order[i]) == SoldOut
  {
    LabelShowsStock(t.order[i], t.stock[t.order[i]]);
  }

  // ---------------------------------------------------------------------
  // The shared table

  datatype EditOutcome = Edited | BadQuantity | MissingItem

  class StockTable {
    /** `stocks_data`. */
    var data: Table
    /** Every snapshot written to stocks_data.json, oldest first. */
    var saved: seq<seq<Entry>>

    ghost predicate Valid()
      reads this
    {
      WellFormed(data)
    }

    /** `stocks_data = openJson(directory)` (calliope.py:476). */
    constructor Load(pairs: seq<Entry>)
      ensures Valid()
      ensures data == FromPairs(pairs) && saved == []
    {
      data := FromPairs(pairs);
      saved := [];
    }

    /** `NewModal.callback` (calliope.py:454-473): the quantity field must be
        all digits (so an empty field is refused); then the name is set to
        that number, appended if new, and the table is saved. */
    method New(nameField: string, quantityField: string) returns (added: bool)
      requires Valid()
      modifies this
      ensures Valid()
      ensures added <==> IsDigits(quantityField)
      ensures !added ==> data == old(data) && saved == old(saved)
      ensures added ==> data.stock == old(data.stock)[nameField := DigitsValue(quantityField)]
      ensures added ==> data.order == if nameField in old(data.stock) then old(data.order)
                                      else old(data.order) + [nameField]
      ensures added ==> saved == old(saved) + [Items(data)]
    {
      if !IsDigits(quantityField) {
        added := false;
        return;
      }
      added := true;
      data := Put(data, nameField, DigitsValue(quantityField));
      saved := saved + [Items(data)];
    }

    /** `DeleteNowConfirmationView.confirm_button` (calliope.py:221-230): a
        present name is removed; the table is saved either way. */
    method Delete(name: string) returns (found: bool)
      requires Valid()
      modifies this
      ensures Valid()
      ensures found <==> name in old(data.stock)
      ensures data.stock == old(data.stock) - {name}
      ensures data.order == Erase(old(data.order), name)
      ensures !found ==> data == old(data)
      ensures saved == old(saved) + [Items(data)]
    {
      found := name in data.stock;
      if found {
        data := Pop(data, name);
      }
      saved := saved + [Items(data)];
    }

    /** `QuantityModal.callback` (calliope.py:359-391) for the item `oldName`.
        A non-empty quantity field that is not all digits is refused.  An
        empty field keeps the current value.  A given quantity is stored under
        the old name first; a given name then takes over the entry with
        `stocks_data[new] = stocks_data.pop(old)`, which raises KeyError when
        the old name is gone and no quantity re-created it. */
    method Edit(oldName: string, nameField: string, quantityField: string) returns (outcome: EditOutcome)
      requires Valid()
      modifies this
      ensures Valid()
      ensures outcome == BadQuantity <==> quantityField != "" && !IsDigits(quantityField)
      ensures outcome == MissingItem <==>
                quantityField == "" && nameField != "" && oldName !in old(data.stock)
      ensures outcome != Edited ==> data == old(data) && saved == old(saved)
      ensures outcome == Edited ==> saved == old(saved) + [Items(data)]
      // only the quantity changes
      ensures outcome == Edited && nameField == "" ==>
                data == if quantityField == "" then old(data)
                        else Put(old(data), oldName, DigitsValue(quantityField))
      // the entry is renamed, taking its (possibly new) quantity along
      ensures outcome == Edited && nameField != "" ==>
                data.stock == (old(data.stock) - {oldName})[nameField :=
                  if quantityField == "" then old(data.stock)[oldName] else DigitsValue(quantityField)]
      ensures outcome == Edited && nameField != "" ==>
                var rest := Erase(old(data.order), oldName);
                data.order == if nameField in rest then rest else rest + [nameField]
    {
      if !IsDigits(quantityField) && quantityField != "" {
        outcome := BadQuantity;
        return;
      }
      ghost var before := data;
      if quantityField != "" {
        data := Put(data, oldName, DigitsValue(quantityField));
      }
      if nameField != "" {
        if oldName !in data.stock {
          outcome := MissingItem;
          return;
        }
        PutKeepsRest(before, oldName, if quantityField == "" then 0 else DigitsValue(quantityField), quantityField != "");
        data := Rename(data, oldName, nameField);
      }
      saved := saved + [Items(data)];
      outcome := Edited;
    }

    /** The warranty deduction (calliope.py:589-590): the item's quantity goes
        down by exactly `quantity`, with no lower bound, and the table is
        saved; a missing item raises KeyError and nothing changes. */
    method DeductWarranty(item: string, quantity: nat) returns (found: bool)
      requires Valid()
      modifies this
      ensures Valid()
      ensures found <==> item in old(data.stock)
      ensures !found ==> data == old(data) && saved == old(saved)
      ensures found ==> data.stock == old(data.stock)[item := old(data.stock)[item] - quantity]
      ensures found ==> data.order == old(data.order)
      ensures found ==> saved == old(saved) + [Items(data)]
    {
      var r := Deduct(data, item, quantity);
      found := r.Some?;
      if found {
        data := r.value;
        saved := saved + [Items(data)];
      }
    }
  }

  /** Storing a quantity under `k` before popping `k` leaves the same names
      as popping `k` from the original table, whether or not `k` was there. */
  lemma PutKeepsRest(t: Table, k: string, v: int, stored: bool)
    requires WellFormed(t)
    ensures Erase((if stored then Put(t, k, v) else t).order, k) == Erase(t.order, k)
    ensures (if stored then Put(t, k, v) else t).stock - {k} == t.stock - {k}
  {
    if stored && k !in t.stock {
      EraseAppended(t.order, k);
    }
  }

  lemma {:induction false} EraseAppended(ns: seq<string>, k: string)
    requires k !in ns
    ensures Erase(ns + [k], k) == ns
  {
    if ns != [] {
      assert (ns + [k])[1..] == ns[1..] + [k];
      EraseAppended(ns[1..], k);
    }
  }
}
