/**
 * `SelectedItemsConverter`: the binding converter that turns a multi-select
 * list into the text of its closed box.  It inspects the entries by
 * reflection; the model states what reflection finds on each entry.
 */
module SelectedItemsConverter {
  import opened Wrappers
  import opened Text
  import opened Records
  import opened Tasks

  /** A property found by reflection: absent, or present with a value that is a string or not. */
  datatype Property = Absent | Present(text: Option<string>)

  /** The `Item` object of an entry: what its `Name` and `CompanyName` properties hold. */
  datatype ItemObject = ItemObject(nameProperty: Property, companyNameProperty: Property)

  /**
   * An entry of the bound list: whether its `IsSelected` property exists and
   * holds `true`, and its `Item` (`None` when the property is missing or null).
   */
  datatype Entry = Entry(selected: bool, item: Option<ItemObject>)

  /** The bound value: a list of entries, or anything that is not enumerable. */
  datatype BoundValue = NotEnumerable | Enumerable(entries: seq<Entry>)

  /**
   * The name an entry contributes, if any: `Name` when the item has that
   * property, otherwise `CompanyName`; only a non-empty string counts.
   */
  function EntryName(e: Entry): (r: Option<string>)
    ensures r.Some? ==> e.selected && e.item.Some? && r.value != ""
    ensures r.Some? && e.item.value.nameProperty.Present? ==> e.item.value.nameProperty.text == r
  {
    if !e.selected || e.item.None? then None
    else
      var prop := if e.item.value.nameProperty.Present? then e.item.value.nameProperty
                  else e.item.value.companyNameProperty;
      if prop.Present? && prop.text.Some? && prop.text.value != "" then Some(prop.text.value) else None
  }

  /** The names the loop collects, in list order. */
  function CollectedNames(entries: seq<Entry>): (r: seq<string>)
    ensures |r| <= |entries|
    ensures forall i :: 0 <= i < |r| ==> r[i] != ""
  {
    if entries == [] then []
    else
      var n := EntryName(entries[0]);
      (if n.Some? then [n.value] else []) + CollectedNames(entries[1..])
  }

  /** `Convert`: the collecting loop, then the joined names or the placeholder. */
  method Convert(value: BoundValue) returns (text: string)
    ensures value.NotEnumerable? ==> text == Placeholder
    ensures value.Enumerable? ==> text == DisplayText(CollectedNames(value.entries))
  {
    if value.NotEnumerable? {
      return Placeholder;
    }
    var entries := value.entries;
    var names: seq<string> := [];
    var i := 0;
    while i < |entries|
      invariant 0 <= i <= |entries|
      invariant names == CollectedNames(entries[..i])
    {
      var n := EntryName(entries[i]);
      if n.Some? {
        names := names + [n.value];
      }
      CollectedNamesStep(entries, i);
      i := i + 1;
    }
    assert entries[..i] == entries;
    text := if names != [] then Join(", ", names) else Placeholder;
  }

  /** Collecting one more entry. */
  lemma CollectedNamesStep(entries: seq<Entry>, i: int)
    requires 0 <= i < |entries|
    ensures CollectedNames(entries[..i + 1]) == CollectedNames(entries[..i])
            + (if EntryName(entries[i]).Some? then [EntryName(entries[i]).value] else [])
  {
    assert entries[..i + 1] == entries[..i] + [entries[i]];
    CollectedNamesAppend(entries[..i], [entries[i]]);
  }

  lemma {:induction false} CollectedNamesAppend(a: seq<Entry>, b: seq<Entry>)
    ensures CollectedNames(a + b) == CollectedNames(a) + CollectedNames(b)
  {
    if a == [] {
      assert a + b == b;
    } else {
      assert (a + b)[0] == a[0];
      assert (a + b)[1..] == a[1..] + b;
      CollectedNamesAppend(a[1..], b);
    }
  }

  /** `ConvertBack` is not supported: it always fails. */
  function ConvertBack(text: string): (r: Option<BoundValue>)
    ensures r.None?
  {
    None
  }

  // ---------------------------------------------------------------------------
  // Agreement with the screen's own summary text
  // ---------------------------------------------------------------------------

  /** How a status or priority entry looks to reflection: it has a `Name` property. */
  function NamedEntry(x: Selectable<Named>): Entry
  {
    Entry(x.isSelected, Some(ItemObject(Present(Some(x.item.name)), Absent)))
  }

  function NamedEntries(xs: seq<Selectable<Named>>): (r: seq<Entry>)
    ensures |r| == |xs| && forall k :: 0 <= k < |xs| ==> r[k] == NamedEntry(xs[k])
  {
    seq(|xs|, k requires 0 <= k < |xs| => NamedEntry(xs[k]))
  }

  /**
   * When no selected entry has an empty name, the converter shows the same
   * text as `UpdateDisplayText` computes for the list.
   */
  lemma {:induction false} ConverterAgreesWithScreen(xs: seq<Selectable<Named>>)
    requires forall k :: 0 <= k < |xs| && xs[k].isSelected ==> xs[k].item.name != ""
    ensures CollectedNames(NamedEntries(xs)) == NamedNames(SelectedItems(xs))
  {
    if xs != [] {
      var tail := xs[1..];
      forall k | 0 <= k < |tail| && tail[k].isSelected
        ensures tail[k].item.name != ""
      {
        assert tail[k] == xs[k + 1];
      }
      ConverterAgreesWithScreen(tail);
      var head: seq<Named> := if xs[0].isSelected then [xs[0].item] else [];
      CollectedNamesCons(xs);
      SelectedItemsCons(xs);
      NamedNamesAppend(head, SelectedItems(tail));
      assert NamedNames(head) == if xs[0].isSelected then [xs[0].item.name] else [];
    }
  }

  /** The converter's side of `ConverterAgreesWithScreen`, one entry at a time. */
  lemma CollectedNamesCons(xs: seq<Selectable<Named>>)
    requires xs != [] && (xs[0].isSelected ==> xs[0].item.name != "")
    ensures CollectedNames(NamedEntries(xs))
            == (if xs[0].isSelected then [xs[0].item.name] else []) + CollectedNames(NamedEntries(xs[1..]))
  {
    var entries := NamedEntries(xs);
    assert entries[1..] == NamedEntries(xs[1..]);
    assert entries[0] == NamedEntry(xs[0]);
  }

  /** The screen's side of `ConverterAgreesWithScreen`, one entry at a time. */
  lemma SelectedItemsCons(xs: seq<Selectable<Named>>)
    requires xs != []
    ensures SelectedItems(xs) == (if xs[0].isSelected then [xs[0].item] else []) + SelectedItems(xs[1..])
  {
  }

  /** The names of two lists, one after the other. */
  lemma NamedNamesAppend(a: seq<Named>, b: seq<Named>)
    ensures NamedNames(a + b) == NamedNames(a) + NamedNames(b)
  {
    assert forall k :: 0 <= k < |a + b| ==> NamedNames(a + b)[k] == (NamedNames(a) + NamedNames(b))[k];
  }

  /** A selected entry with an empty name is dropped by the converter but kept by the screen's text. */
  lemma EmptyNameDiffers()
    ensures CollectedNames(NamedEntries([Selectable(Named(1, ""), true)])) == []
    ensures NamedNames(SelectedItems([Selectable(Named(1, ""), true)])) == [""]
  {
    var xs := [Selectable(Named(1, ""), true)];
    assert NamedEntries(xs)[1..] == [];
    assert SelectedItems(xs) == [Named(1, "")];
  }
}
