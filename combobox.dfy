/** `HeaderComboBox`: an editable combo box with a header label that accepts only
    the entries of its item list. An activated entry not in that list (text the
    user typed in) is removed again, and the selection returns to the last entry
    accepted. */
module ComboBox {

  /** The first position of `text` among `entries` (an exact, case-sensitive
      match), or -1. */
  function FindText(entries: seq<string>, text: string): (r: int)
    ensures -1 <= r < |entries|
    ensures r >= 0 ==> entries[r] == text && forall i :: 0 <= i < r ==> entries[i] != text
    ensures r == -1 <==> text !in entries
  {
    if |entries| == 0 then -1
    else if entries[0] == text then 0
    else
      var rest := FindText(entries[1..], text);
      if rest == -1 then -1 else rest + 1
  }

  /** `s` without its element at `i`. */
  function RemoveAt(s: seq<string>, i: nat): (r: seq<string>)
    requires i < |s|
    ensures |r| == |s| - 1
    ensures forall j :: 0 <= j < i ==> r[j] == s[j]
    ensures forall j :: i <= j < |r| ==> r[j] == s[j + 1]
  {
    s[..i] + s[i + 1..]
  }

  class HeaderComboBox {
    /** The combo's entries, the allowed `_items`, the current index (-1 for none)
        and `_prevIdx`, the last index accepted. */
    var entries: seq<string>
    var items: seq<string>
    var current: int
    var prevIdx: int

    /** The current index is -1 or names an entry. */
    ghost predicate Valid()
      reads this
    {
      -1 <= current < |entries|
    }

    /** The last accepted index names an allowed entry. */
    ghost predicate Settled()
      reads this
    {
      0 <= prevIdx < |entries| && entries[prevIdx] in items
    }

    /** The entries and the allowed list are `items`; the first entry, if any, is
        current; `_prevIdx` is 0. */
    constructor (initial: seq<string>)
      ensures Valid()
      ensures entries == initial && items == initial && prevIdx == 0
      ensures current == if |initial| > 0 then 0 else -1
      ensures |initial| > 0 ==> Settled()
    {
      items := initial;
      prevIdx := 0;
      entries := initial;
      current := if |initial| > 0 then 0 else -1;
    }

    /** `itemText(idx)`: the entry's text, "" for an index without an entry. */
    function ItemText(idx: int): (r: string)
      reads this
      ensures 0 <= idx < |entries| ==> r == entries[idx]
      ensures !(0 <= idx < |entries|) ==> r == ""
    {
      if 0 <= idx < |entries| then entries[idx] else ""
    }

    /** `setCurrentIndex(idx)`: an index without an entry selects nothing (-1). */
    method SetCurrentIndex(idx: int)
      modifies this
      ensures Valid()
      ensures current == if 0 <= idx < |entries| then idx else -1
      ensures entries == old(entries) && items == old(items) && prevIdx == old(prevIdx)
    {
      current := if 0 <= idx < |entries| then idx else -1;
    }

    /** `_activatedEvent(idx)`: returns the index the `activated` signal reports. An
        entry not in the allowed list is removed, the selection returns to
        `_prevIdx`, which stays, and `_prevIdx` is reported; an allowed entry becomes
        current and the new `_prevIdx`, and `idx` is reported. */
    method Activated(idx: int) returns (reported: int)
      modifies this
      ensures Valid() && items == old(items)
      ensures old(ItemText(idx)) !in items ==>
        && entries == (if 0 <= idx < |old(entries)| then RemoveAt(old(entries), idx) else old(entries))
        && prevIdx == old(prevIdx) && reported == old(prevIdx)
        && current == (if 0 <= old(prevIdx) < |entries| then old(prevIdx) else -1)
      ensures old(ItemText(idx)) in items ==>
        && entries == old(entries) && prevIdx == idx && reported == idx
        && current == (if 0 <= idx < |entries| then idx else -1)
      // an allowed entry, or an entry after the last accepted one, leaves the
      // selection on an allowed entry
      ensures (0 <= idx < |old(entries)| && old(entries)[idx] in items) ==> Settled() && current == prevIdx
      ensures (old(Settled()) && old(prevIdx) < idx < |old(entries)|) ==> Settled() && current == prevIdx
    {
      var text := ItemText(idx);
      if text !in items {
        if 0 <= idx < |entries| {
          entries := RemoveAt(entries, idx);
        }
        SetCurrentIndex(prevIdx);
        reported := prevIdx;
      } else {
        SetCurrentIndex(idx);
        prevIdx := idx;
        reported := idx;
      }
    }

    /** `clearItems`: no entries and no current index; the allowed list stays. */
    method ClearItems()
      modifies this
      ensures Valid()
      ensures entries == [] && current == -1
      ensures items == old(items) && prevIdx == old(prevIdx)
    {
      entries := [];
      current := -1;
    }

    /** `setCurrentText(text)`: selects the first entry equal to `text`; with none,
        nothing changes. */
    method SetCurrentText(text: string)
      requires Valid()
      modifies this
      ensures Valid()
      ensures entries == old(entries) && items == old(items) && prevIdx == old(prevIdx)
      ensures text in entries ==> current == FindText(entries, text) && entries[current] == text
      ensures text !in entries ==> current == old(current)
    {
      var idx := FindText(entries, text);
      if idx > -1 {
        SetCurrentIndex(idx);
      }
    }

    /** `setItems(newItems)`: the entries and the allowed list become `newItems`, the
        first entry is current; `_prevIdx` is not touched. */
    method SetItems(newItems: seq<string>)
      modifies this
      ensures Valid()
      ensures items == newItems && entries == newItems && prevIdx == old(prevIdx)
      ensures current == if |newItems| > 0 then 0 else -1
    {
      items := newItems;
      ClearItems();
      entries := newItems;
      SetCurrentIndex(0);
    }

    /** `currentIndex`. */
    method CurrentIndex() returns (idx: int)
      requires Valid()
      ensures idx == current && -1 <= idx < |entries|
    {
      idx := current;
    }
  }
}
