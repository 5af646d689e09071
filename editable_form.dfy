/**
 * The editable extraction form of `EditableForm.jsx`: the form library's
 * values, the `items` table kept in component state, the handlers that edit
 * that table, and the submit that hands the merged record to the parent.
 */
module EditableForm {
  import opened Wrappers
  import opened Records

  /** The scalar inputs the form registers with the form library. */
  const RegisteredFields: set<string> := {
    "shipment_id", "shipment_date", "sender_name", "sender_address",
    "receiver_name", "receiver_address", "total_weight", "total_value"
  }

  /** `Array.isArray(data?.items) ? data.items : []`. */
  function ItemsOf(data: Record): (r: seq<LineItem>)
    ensures data.items.Some? ==> r == data.items.value
    ensures data.items.None? ==> r == []
  {
    data.items.GetOr([])
  }

  /**
   * `items.map((item, i) => i === idx ? { ...item, [f]: v } : item)`: the one
   * cell (idx, f) set to v; an index outside the table changes nothing.
   */
  function ChangeItem(items: seq<LineItem>, idx: int, f: Field, v: string): (r: seq<LineItem>)
    ensures |r| == |items|
    ensures 0 <= idx < |items| ==> r[idx].Get(f) == v
    ensures 0 <= idx < |items| ==> forall g: Field :: g != f ==> r[idx].Get(g) == items[idx].Get(g)
    ensures forall i :: 0 <= i < |items| && i != idx ==> r[i] == items[i]
  {
    seq(|items|, i requires 0 <= i < |items| => if i == idx then items[i].With(f, v) else items[i])
  }

  /** `[...items, { description: '', quantity: '', weight: '', value: '' }]`. */
  function AddItem(items: seq<LineItem>): (r: seq<LineItem>)
    ensures |r| == |items| + 1
    ensures r[..|items|] == items
    ensures r[|items|] == BlankItem
    ensures forall f: Field :: r[|items|].Get(f) == ""
  {
    items + [BlankItem]
  }

  /** `items.filter((_, i) => i !== idx)`, walking the indexes from 0. */
  function RemoveItem(items: seq<LineItem>, idx: int): seq<LineItem>
  {
    if |items| == 0 then []
    else (if idx == 0 then [] else [items[0]]) + RemoveItem(items[1..], idx - 1)
  }

  /**
   * Removing drops exactly position `idx` and keeps the rest in order; an
   * index outside the table changes nothing.
   */
  lemma {:induction false} RemoveItemSpec(items: seq<LineItem>, idx: int)
    ensures 0 <= idx < |items| ==> RemoveItem(items, idx) == items[..idx] + items[idx + 1..]
    ensures 0 <= idx < |items| ==> |RemoveItem(items, idx)| == |items| - 1
    ensures !(0 <= idx < |items|) ==> RemoveItem(items, idx) == items
  {
    if |items| > 0 {
      RemoveItemSpec(items[1..], idx - 1);
      if idx == 0 {
        assert items[1..] == items[..0] + items[1..];
      } else if 0 < idx < |items| {
        assert items[..idx] == [items[0]] + items[1..][..idx - 1];
        assert items[idx + 1..] == items[1..][idx..];
      } else {
        assert items == [items[0]] + items[1..];
      }
    }
  }

  /**
   * The form's state: the form library's current values (including the
   * `items` member it is told about) and the `items` table in component state.
   */
  class EditableFormComponent {
    var values: Record
    var items: seq<LineItem>

    /** After every render the form's `items` value equals the table (the second effect). */
    ghost predicate Valid()
      reads this
    {
      values.items == Some(items)
    }

    /**
     * Mounting with `data`: the form starts from `data`, the table from
     * `data.items` (or empty), and the sync effect copies the table into the form.
     */
    constructor (data: Record)
      ensures Valid()
      ensures items == ItemsOf(data)
      ensures values == data.(items := Some(ItemsOf(data)))
    {
      items := ItemsOf(data);
      values := data.(items := Some(ItemsOf(data)));
    }

    /**
     * A new `data` prop: `reset(data)` and the table replaced by the new
     * record's items, unconditionally, so unsaved item edits are discarded.
     */
    method DataChanged(data: Record)
      modifies this
      ensures Valid()
      ensures items == ItemsOf(data)
      ensures values == data.(items := Some(ItemsOf(data)))
    {
      values := data;
      items := ItemsOf(data);
      values := values.(items := Some(items));
    }

    /** Typing into a registered scalar input. */
    method EditField(name: string, v: string)
      requires Valid()
      requires name in RegisteredFields
      modifies this
      ensures Valid() && items == old(items)
      ensures values == old(values).(fields := old(values).fields[name := v])
    {
      values := values.(fields := values.fields[name := v]);
    }

    /** `handleItemChange(idx, f, v)` followed by the sync effect. */
    method HandleItemChange(idx: int, f: Field, v: string)
      requires Valid()
      modifies this
      ensures Valid() && values.fields == old(values.fields)
      ensures items == ChangeItem(old(items), idx, f, v)
    {
      items := ChangeItem(items, idx, f, v);
      values := values.(items := Some(items));
    }

    /** `handleAddItem()` followed by the sync effect. */
    method HandleAddItem()
      requires Valid()
      modifies this
      ensures Valid() && values.fields == old(values.fields)
      ensures items == AddItem(old(items))
    {
      items := AddItem(items);
      values := values.(items := Some(items));
    }

    /** `handleRemoveItem(idx)` followed by the sync effect. */
    method HandleRemoveItem(idx: int)
      requires Valid()
      modifies this
      ensures Valid() && values.fields == old(values.fields)
      ensures items == RemoveItem(old(items), idx)
    {
      items := RemoveItem(items, idx);
      values := values.(items := Some(items));
    }

    /**
     * `onSubmit`: the form values with `items` overridden by the table, passed
     * to `onSave` when there is one; nothing is passed otherwise.
     */
    method Submit(hasOnSave: bool) returns (saved: Option<Record>)
      requires Valid()
      ensures hasOnSave ==> saved == Some(Record(values.fields, Some(items)))
      ensures !hasOnSave ==> saved == None
    {
      if hasOnSave {
        saved := Some(values.(items := Some(items)));
      } else {
        saved := None;
      }
    }
  }
}
