/** `AnyPosCompleter`: a completer that offers every vocabulary entry containing the
    typed text anywhere, ignoring case, instead of only the entries starting with it.
    Each time the completer splits a new prefix it rebuilds a filtering view over
    the vocabulary that remembers that prefix. */
module Completer {
  import opened Py

  /** `filterAcceptsRow` of the inner proxy: the lower-cased prefix occurs in the
      lower-cased entry. */
  function Accepts(prefix: string, entry: string): (b: bool)
    ensures b <==> Contains(Lower(entry), Lower(prefix))
    ensures b <==> exists i: nat :: OccursAt(Lower(entry), Lower(prefix), i)
  {
    Contains(Lower(entry), Lower(prefix))
  }

  /** The rows of the filtering view: the accepted entries, in vocabulary order. */
  function Filter(prefix: string, source: seq<string>): (r: seq<string>)
    ensures |r| <= |source|
    ensures forall x :: x in r <==> x in source && Accepts(prefix, x)
  {
    if |source| == 0 then []
    else (if Accepts(prefix, source[0]) then [source[0]] else []) + Filter(prefix, source[1..])
  }

  /** Filtering a concatenation filters each part and keeps them in order, so the
      view lists its entries in the order of the vocabulary. */
  lemma {:induction false} FilterAppend(prefix: string, xs: seq<string>, ys: seq<string>)
    ensures Filter(prefix, xs + ys) == Filter(prefix, xs) + Filter(prefix, ys)
  {
    if |xs| == 0 {
      assert xs + ys == ys;
    } else {
      assert (xs + ys)[0] == xs[0];
      assert (xs + ys)[1..] == xs[1..] + ys;
      FilterAppend(prefix, xs[1..], ys);
    }
  }

  /** An empty prefix accepts every entry: the view is the whole vocabulary. */
  lemma {:induction false} FilterEmptyPrefix(source: seq<string>)
    ensures Filter("", source) == source
  {
    if |source| > 0 {
      ContainsEmpty(Lower(source[0]));
      FilterEmptyPrefix(source[1..]);
    }
  }

  /** The predicate ignores case on both sides: a prefix or an entry that differs
      only in the case of its letters gives the same answer. */
  lemma AcceptsIgnoresCase(prefix: string, prefix': string, entry: string, entry': string)
    requires SameIgnoringCase(prefix, prefix') && SameIgnoringCase(entry, entry')
    ensures Accepts(prefix, entry) == Accepts(prefix', entry')
  {
    LowerIdentifiesCaseVariants(prefix, prefix');
    LowerIdentifiesCaseVariants(entry, entry');
  }

  /** The whole view is the same for any case variant of the prefix. */
  lemma {:induction false} FilterIgnoresCase(prefix: string, prefix': string, source: seq<string>)
    requires SameIgnoringCase(prefix, prefix')
    ensures Filter(prefix, source) == Filter(prefix', source)
  {
    if |source| > 0 {
      AcceptsIgnoresCase(prefix, prefix', source[0], source[0]);
      FilterIgnoresCase(prefix, prefix', source[1..]);
    }
  }

  /** "day" matches both "Monday" and "Sunday", in order. */
  lemma FilterExample()
    ensures Filter("day", ["Monday", "Sunday"]) == ["Monday", "Sunday"]
  {
    DayAccepted();
    FilterBothAccepted("day", "Monday", "Sunday");
  }

  /** Two entries that are both accepted are both kept, in order. */
  lemma FilterBothAccepted(prefix: string, a: string, b: string)
    requires Accepts(prefix, a) && Accepts(prefix, b)
    ensures Filter(prefix, [a, b]) == [a, b]
  {
    assert [a, b][1..] == [b];
    assert [b][1..] == [];
  }

  /** "day" occurs in "monday" and "sunday" at index 3. */
  lemma DayAccepted()
    ensures Accepts("day", "Monday") && Accepts("day", "Sunday")
  {
    LowerDay();
    LowerMonday();
    LowerSunday();
    assert OccursAt("monday", "day", 3);
    assert OccursAt("sunday", "day", 3);
  }

  lemma LowerDay()
    ensures Lower("day") == "day"
  {
    assert forall i :: 0 <= i < 3 ==> !('A' <= "day"[i] <= 'Z');
  }

  lemma LowerMonday()
    ensures Lower("Monday") == "monday"
  {
    assert LowerChar('M') == 'm';
    assert forall i :: 1 <= i < 6 ==> "Monday"[i] == "monday"[i] && !('A' <= "Monday"[i] <= 'Z');
  }

  lemma LowerSunday()
    ensures Lower("Sunday") == "sunday"
  {
    assert LowerChar('S') == 's';
    assert forall i :: 1 <= i < 6 ==> "Sunday"[i] == "sunday"[i] && !('A' <= "Sunday"[i] <= 'Z');
  }

  /** What the completer was constructed from: a list of strings, an item model
      (given by its rows), or anything else. */
  datatype Completions = StringList(items: seq<string>) | ItemModel(rows: seq<string>) | Other

  /** The model the base completer completes from: none yet, the source model
      itself, or a filtering view over the source (or over no source). */
  datatype CompletionModel =
    | NoModel
    | Source(rows: seq<string>)
    | FilterView(prefix: string, source: Option<seq<string>>)

  /** The rows a completion model offers. */
  function Rows(m: CompletionModel): seq<string>
  {
    match m
    case NoModel => []
    case Source(rows) => rows
    case FilterView(p, src) => if src.Some? then Filter(p, src.value) else []
  }

  class AnyPosCompleter {
    /** `local_completion_prefix`, `source_model`, and the model the base class completes from. */
    var localCompletionPrefix: string
    var sourceModel: Option<seq<string>>
    var model: CompletionModel

    /** The constructor: only a nonempty list, or an item model, becomes the source model. */
    constructor (completions: Completions)
      ensures localCompletionPrefix == ""
      ensures completions.StringList? && |completions.items| > 0 ==>
        sourceModel == Some(completions.items) && model == Source(completions.items)
      ensures completions.ItemModel? ==>
        sourceModel == Some(completions.rows) && model == Source(completions.rows)
      ensures (completions.StringList? && |completions.items| == 0) || completions.Other? ==>
        sourceModel == None && model == NoModel
    {
      localCompletionPrefix := "";
      sourceModel := None;
      model := NoModel;
      new;
      match completions
      case ItemModel(rows) => SetModel(rows);
      case StringList(items) =>
        if |items| > 0 {
          SetModel(items);
        }
      case Other =>
    }

    /** `setModel`: the new model becomes both the source model and the completion model. */
    method SetModel(m: seq<string>)
      modifies this
      ensures sourceModel == Some(m) && model == Source(m)
      ensures localCompletionPrefix == old(localCompletionPrefix)
    {
      sourceModel := Some(m);
      model := Source(m);
    }

    /** `updateModel`: completes from a fresh view over the source model that keeps
        the prefix as it is now; the source model is not changed. */
    method UpdateModel()
      modifies this
      ensures model == FilterView(old(localCompletionPrefix), old(sourceModel))
      ensures sourceModel == old(sourceModel) && localCompletionPrefix == old(localCompletionPrefix)
      ensures forall x :: x in Rows(model) ==> sourceModel.Some? && x in sourceModel.value
    {
      var prefix := localCompletionPrefix;
      model := FilterView(prefix, sourceModel);
    }

    /** `splitPath`: keeps the path as the prefix, rebuilds the view and returns the
        empty string, so that the base class matches every row of the view. */
    method SplitPath(path: string) returns (r: string)
      modifies this
      ensures r == ""
      ensures localCompletionPrefix == path && sourceModel == old(sourceModel)
      ensures model == FilterView(path, sourceModel)
    {
      localCompletionPrefix := path;
      UpdateModel();
      r := "";
    }
  }
}
