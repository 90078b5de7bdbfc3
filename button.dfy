/** `CheckButtonGroup` of the checkbox type: a group box holding a row or column of
    check boxes, addressed by label or by position. The layout that holds the
    buttons holds nothing else, so every item of it is a button. */
module Button {
  import opened Py

  /** One check box: its label and whether it is checked. */
  datatype CheckButton = CheckButton(text: string, checked: bool)

  /** The positions of the checked buttons, ascending. */
  function CheckedIndices(bs: seq<CheckButton>): (r: seq<nat>)
    ensures forall i :: 0 <= i < |r| ==> r[i] < |bs| && bs[r[i]].checked
    ensures forall i :: 0 <= i < |bs| && bs[i].checked ==> i in r
    ensures forall i, j :: 0 <= i < j < |r| ==> r[i] < r[j]
  {
    if |bs| == 0 then []
    else CheckedIndices(bs[..|bs| - 1]) + (if bs[|bs| - 1].checked then [|bs| - 1] else [])
  }

  /** The labels of the checked buttons, in the order of the buttons. */
  function CheckedNames(bs: seq<CheckButton>): (r: seq<string>)
    ensures |r| == |CheckedIndices(bs)|
    ensures forall i :: 0 <= i < |r| ==> r[i] == bs[CheckedIndices(bs)[i]].text
  {
    var idx := CheckedIndices(bs);
    seq(|idx|, i requires 0 <= i < |idx| => bs[idx[i]].text)
  }

  /** With no button checked there is no checked position. */
  lemma {:induction false} NoneChecked(bs: seq<CheckButton>)
    requires forall i :: 0 <= i < |bs| ==> !bs[i].checked
    ensures CheckedIndices(bs) == []
  {
    if |bs| > 0 {
      NoneChecked(bs[..|bs| - 1]);
    }
  }

  /** With every button checked every position is checked. */
  lemma {:induction false} AllChecked(bs: seq<CheckButton>)
    requires forall i :: 0 <= i < |bs| ==> bs[i].checked
    ensures CheckedIndices(bs) == seq(|bs|, i => i)
  {
    if |bs| > 0 {
      AllChecked(bs[..|bs| - 1]);
      assert seq(|bs| - 1, i => i) + [|bs| - 1] == seq(|bs|, i => i);
    }
  }

  /** With exactly one button checked, its position is the only one reported. */
  lemma {:induction false} OneChecked(bs: seq<CheckButton>, k: nat)
    requires k < |bs| && bs[k].checked
    requires forall i :: 0 <= i < |bs| && i != k ==> !bs[i].checked
    ensures CheckedIndices(bs) == [k]
  {
    if k == |bs| - 1 {
      NoneChecked(bs[..|bs| - 1]);
    } else {
      OneChecked(bs[..|bs| - 1], k);
    }
  }

  class CheckButtonGroup {
    /** The buttons of the layout, in layout order. */
    var buttons: seq<CheckButton>

    /** A group holding one unchecked button per item, in order. */
    constructor (items: seq<string>)
      ensures |buttons| == |items|
      ensures forall i :: 0 <= i < |items| ==> buttons[i] == CheckButton(items[i], false)
    {
      buttons := [];
      new;
      for k := 0 to |items|
        invariant |buttons| == k
        invariant forall i :: 0 <= i < k ==> buttons[i] == CheckButton(items[i], false)
      {
        AddItem(items[k]);
      }
    }

    /** `addItem(name)`: one unchecked button with the label, at the end. */
    method AddItem(name: string)
      modifies this
      ensures buttons == old(buttons) + [CheckButton(name, false)]
    {
      buttons := buttons + [CheckButton(name, false)];
    }

    /** `setCheckedByNames(names, check)`: the buttons whose label is among `names`
        get `check`, all others `not check`; labels and order stay. */
    method SetCheckedByNames(names: seq<string>, check: bool)
      modifies this
      ensures |buttons| == |old(buttons)|
      ensures forall i :: 0 <= i < |buttons| ==>
        buttons[i] == CheckButton(old(buttons)[i].text, if old(buttons)[i].text in names then check else !check)
    {
      for k := 0 to |buttons|
        invariant |buttons| == |old(buttons)|
        invariant forall i :: 0 <= i < k ==>
          buttons[i] == CheckButton(old(buttons)[i].text, if old(buttons)[i].text in names then check else !check)
        invariant forall i :: k <= i < |buttons| ==> buttons[i] == old(buttons)[i]
      {
        var state := if buttons[k].text in names then check else !check;
        buttons := buttons[k := buttons[k].(checked := state)];
      }
    }

    /** `setCheckedByName(name, check)`: the buttons labelled `name` get `check`, all
        others `not check`; labels and order stay. */
    method SetCheckedByName(name: string, check: bool)
      modifies this
      ensures |buttons| == |old(buttons)|
      ensures forall i :: 0 <= i < |buttons| ==>
        buttons[i] == CheckButton(old(buttons)[i].text, if old(buttons)[i].text == name then check else !check)
    {
      for k := 0 to |buttons|
        invariant |buttons| == |old(buttons)|
        invariant forall i :: 0 <= i < k ==>
          buttons[i] == CheckButton(old(buttons)[i].text, if old(buttons)[i].text == name then check else !check)
        invariant forall i :: k <= i < |buttons| ==> buttons[i] == old(buttons)[i]
      {
        var state := if buttons[k].text == name then check else !check;
        buttons := buttons[k := buttons[k].(checked := state)];
      }
    }

    /** `_checkAll(check)`: every button gets `check`; labels and order stay. */
    method SetAll(check: bool)
      modifies this
      ensures |buttons| == |old(buttons)|
      ensures forall i :: 0 <= i < |buttons| ==> buttons[i] == CheckButton(old(buttons)[i].text, check)
    {
      for k := 0 to |buttons|
        invariant |buttons| == |old(buttons)|
        invariant forall i :: 0 <= i < k ==> buttons[i] == CheckButton(old(buttons)[i].text, check)
        invariant forall i :: k <= i < |buttons| ==> buttons[i] == old(buttons)[i]
      {
        buttons := buttons[k := buttons[k].(checked := check)];
      }
    }

    /** `checkAll`. */
    method CheckAll()
      modifies this
      ensures |buttons| == |old(buttons)|
      ensures forall i :: 0 <= i < |buttons| ==> buttons[i] == CheckButton(old(buttons)[i].text, true)
    {
      SetAll(true);
    }

    /** `uncheckAll`. */
    method UncheckAll()
      modifies this
      ensures |buttons| == |old(buttons)|
      ensures forall i :: 0 <= i < |buttons| ==> buttons[i] == CheckButton(old(buttons)[i].text, false)
    {
      SetAll(false);
    }

    /** `setCheckedByIndex(idx, check, exclusive)`: IndexError for an index past the
        last button and AttributeError for a negative one (the layout has no item
        there), both changing nothing. Otherwise the button at `idx` gets `check`;
        an exclusive call gives every other button `not check`, a non-exclusive one
        leaves them as they were. */
    method SetCheckedByIndex(idx: int, check: bool, exclusive: bool) returns (outcome: Outcome)
      modifies this
      ensures idx >= |old(buttons)| ==> outcome == Fail(IndexError) && buttons == old(buttons)
      ensures idx < 0 ==> outcome == Fail(AttributeError) && buttons == old(buttons)
      ensures 0 <= idx < |old(buttons)| ==> outcome == Pass
      ensures |buttons| == |old(buttons)|
      ensures forall i :: 0 <= i < |buttons| ==> buttons[i].text == old(buttons)[i].text
      ensures 0 <= idx < |buttons| ==> buttons[idx].checked == check
      ensures (0 <= idx < |buttons| && exclusive) ==>
        forall i :: 0 <= i < |buttons| && i != idx ==> buttons[i].checked == !check
      ensures (0 <= idx < |buttons| && !exclusive) ==>
        forall i :: 0 <= i < |buttons| && i != idx ==> buttons[i] == old(buttons)[i]
    {
      if idx >= |buttons| {
        return Fail(IndexError);
      }
      if idx < 0 {
        return Fail(AttributeError);
      }
      if exclusive {
        if check {
          UncheckAll();
        } else {
          CheckAll();
        }
      }
      buttons := buttons[idx := buttons[idx].(checked := check)];
      outcome := Pass;
    }

    /** `getCheckedIndices`: the positions of the checked buttons, ascending. */
    method GetCheckedIndices() returns (checks: seq<nat>)
      ensures checks == CheckedIndices(buttons)
    {
      checks := [];
      for k := 0 to |buttons|
        invariant checks == CheckedIndices(buttons[..k])
      {
        assert buttons[..k + 1][..k] == buttons[..k];
        if buttons[k].checked {
          checks := checks + [k];
        }
      }
      assert buttons[..|buttons|] == buttons;
    }

    /** `getCheckedNames`: the labels of the checked buttons, in the same order as
        their positions. */
    method GetCheckedNames() returns (names: seq<string>)
      ensures names == CheckedNames(buttons)
    {
      names := [];
      for k := 0 to |buttons|
        invariant names == CheckedNames(buttons[..k])
        invariant forall i :: 0 <= i < |CheckedIndices(buttons[..k])| ==> CheckedIndices(buttons[..k])[i] < k
      {
        ghost var before := buttons[..k];
        assert buttons[..k + 1][..k] == before;
        if buttons[k].checked {
          names := names + [buttons[k].text];
        }
      }
      assert buttons[..|buttons|] == buttons;
    }

    /** `indexOf(name)`: the first position whose label is `name`, or -1. */
    method IndexOf(name: string) returns (idx: int)
      ensures -1 <= idx < |buttons|
      ensures idx >= 0 ==> buttons[idx].text == name && forall i :: 0 <= i < idx ==> buttons[i].text != name
      ensures idx == -1 ==> forall i :: 0 <= i < |buttons| ==> buttons[i].text != name
    {
      for k := 0 to |buttons|
        invariant forall i :: 0 <= i < k ==> buttons[i].text != name
      {
        if buttons[k].text == name {
          return k;
        }
      }
      return -1;
    }

    /** `nameAt(idx)`: the label at the position; IndexError past the last button,
        AttributeError for a negative index. */
    method NameAt(idx: int) returns (r: Result<string>)
      ensures 0 <= idx < |buttons| ==> r == Ok(buttons[idx].text)
      ensures idx >= |buttons| ==> r == Err(IndexError)
      ensures idx < 0 ==> r == Err(AttributeError)
    {
      if idx >= |buttons| {
        return Err(IndexError);
      }
      if idx < 0 {
        return Err(AttributeError);
      }
      return Ok(buttons[idx].text);
    }
  }
}
