/** The text logic of `MultiCompleteEdit`, a line edit that completes the word
    under the cursor rather than its whole text. The words are separated by a
    configurable separator; after a completion the separator and one space can
    be appended. */
module LineEdit {
  import opened Py

  // ---------------------------------------------------------------------------
  // Specification functions

  /** Where the word ending at index `i` starts: just after the last character
      before `i` that equals the separator, or 0. The separator is a string; a
      character matches it only when the separator is that one character. */
  function TokenStart(text: string, i: nat, separator: string): (j: nat)
    requires i <= |text|
    ensures j <= i
    ensures j == 0 || [text[j - 1]] == separator
    ensures forall k :: j <= k < i ==> [text[k]] != separator
  {
    if i == 0 then 0
    else if [text[i - 1]] == separator then i
    else TokenStart(text, i - 1, separator)
  }

  /** The word under the cursor: the characters from the last separator before the
      cursor up to the cursor, without one leading space when spaces are added
      after completing. */
  function CurrentToken(text: string, cursor: nat, separator: string, addSpace: bool): (t: string)
    requires cursor <= |text|
    // it is the text just before the cursor
    ensures |t| <= cursor && text[cursor - |t|..cursor] == t
    // it never holds the separator
    ensures forall k :: 0 <= k < |t| ==> [t[k]] != separator
    // it is empty at the start of the text and right after a separator
    ensures (cursor == 0 || [text[cursor - 1]] == separator) ==> t == ""
    // it reaches back to the separator, except for one leading space dropped
    // when spaces are added after completing
    ensures var s := TokenStart(text, cursor, separator);
      if addSpace && s < cursor && text[s] == ' ' then |t| == cursor - s - 1 else |t| == cursor - s
  {
    var start := TokenStart(text, cursor, separator);
    var raw := text[start..cursor];
    assert forall k :: 0 <= k < |raw| ==> raw[k] == text[start + k];
    if addSpace && |raw| > 0 && raw[0] == ' ' then raw[1..] else raw
  }

  /** The text after a completion is accepted: the text with its last
      `prefixLength` characters cut off (Python's `text[:-prefixLength]`), then the
      completion, then the separator and a space if configured. */
  function Completed(text: string, completion: string, prefixLength: nat, separator: string, addSpace: bool): (r: string)
    // a nonempty prefix is cut from the end of the text, not at the cursor
    ensures 0 < prefixLength <= |text| ==>
      r == text[..|text| - prefixLength] + completion + (if addSpace then separator + " " else "")
    // `text[:-0]` is empty: an empty prefix discards the whole previous text,
    // and so does a prefix longer than the text
    ensures (prefixLength == 0 || prefixLength > |text|) ==>
      r == completion + (if addSpace then separator + " " else "")
  {
    DropLast(text, prefixLength) + completion + (if addSpace then separator + " " else "")
  }

  /** The text with every trailing comma and space removed. */
  function TrimTrailing(s: string): (r: string)
    ensures r <= s
    ensures |r| == 0 || (r[|r| - 1] != ',' && r[|r| - 1] != ' ')
    ensures forall k :: |r| <= k < |s| ==> s[k] == ',' || s[k] == ' '
  {
    if |s| == 0 then s
    else if s[|s| - 1] == ',' || s[|s| - 1] == ' ' then TrimTrailing(s[..|s| - 1])
    else s
  }

  /** The words entered: empty for empty text; otherwise trailing commas and spaces
      are removed, each ", " becomes "," and the text is split at the commas.
      Text made only of commas and spaces raises IndexError, because the trimming
      loop reads the last character of the emptied text. */
  function TextList(text: string): (r: Result<seq<string>>)
    ensures text == "" ==> r == Ok([])
    ensures r.Err? <==> text != "" && forall k :: 0 <= k < |text| ==> text[k] == ',' || text[k] == ' '
    ensures r.Err? ==> r.error == IndexError
    ensures r.Ok? && text != "" ==>
      |r.value| >= 1 && forall i :: 0 <= i < |r.value| ==> ',' !in r.value[i]
    ensures r.Ok? && text != "" ==> Join(",", r.value) == ReplaceCommaSpace(TrimTrailing(text))
  {
    if |text| == 0 then Ok([])
    else
      var t := TrimTrailing(text);
      if |t| == 0 then Err(IndexError) else Ok(SplitComma(ReplaceCommaSpace(t)))
  }

  // ---------------------------------------------------------------------------
  // The widget

  class MultiCompleteEdit {
    /** The line edit's text and cursor position. */
    var text: string
    var cursor: nat
    /** `_separator` and `_addSpaceAfterCompleting`, fixed at construction. */
    const separator: string
    const addSpace: bool

    ghost predicate Valid()
      reads this
    {
      cursor <= |text|
    }

    /** A new, empty line edit. */
    constructor (separator: string, addSpaceAfterCompleting: bool)
      ensures Valid()
      ensures text == "" && cursor == 0
      ensures this.separator == separator && addSpace == addSpaceAfterCompleting
    {
      text := "";
      cursor := 0;
      this.separator := separator;
      addSpace := addSpaceAfterCompleting;
    }

    /** The inherited `setText`: replaces the text and puts the cursor at its end. */
    method SetText(t: string)
      modifies this
      ensures Valid()
      ensures text == t && cursor == |t|
    {
      text := t;
      cursor := |t|;
    }

    /** An edit made by the inherited key handling, which leaves the cursor
        inside the text. */
    method Edit(newText: string, newCursor: nat)
      requires newCursor <= |newText|
      modifies this
      ensures Valid()
      ensures text == newText && cursor == newCursor
    {
      text := newText;
      cursor := newCursor;
    }

    /** `textUnderCursor`: scans back from the cursor to the separator. */
    method TextUnderCursor() returns (token: string)
      requires Valid()
      ensures token == CurrentToken(text, cursor, separator, addSpace)
    {
      token := "";
      var i: int := cursor - 1;
      while i >= 0 && [text[i]] != separator
        invariant -1 <= i < cursor
        invariant token == text[i + 1..cursor]
        invariant TokenStart(text, cursor, separator) == TokenStart(text, i + 1, separator)
        decreases i
      {
        token := [text[i]] + token;
        i := i - 1;
      }
      if addSpace && |token| > 0 && token[0] == ' ' {
        token := token[1..];
      }
    }

    /** `_insertCompletion`: `completionPrefix` is the completer's current prefix,
        which the key handler keeps equal to the word under the cursor. */
    method InsertCompletion(completion: string, completionPrefix: string)
      modifies this
      ensures Valid()
      ensures text == Completed(old(text), completion, |completionPrefix|, separator, addSpace)
      ensures cursor == |text|
    {
      var lastLabel := DropLast(text, |completionPrefix|);
      var fcompletion: string;
      if addSpace {
        fcompletion := completion + separator + " ";
      } else {
        fcompletion := completion;
      }
      SetText(lastLabel + fcompletion);
    }

    /** `getTextList`. */
    method GetTextList() returns (words: Result<seq<string>>)
      ensures words == TextList(text)
    {
      var t := text;
      if |t| == 0 {
        return Ok([]);
      }
      while |t| > 0 && (t[|t| - 1] == ',' || t[|t| - 1] == ' ')
        invariant t <= text
        invariant TrimTrailing(t) == TrimTrailing(text)
        decreases |t|
      {
        t := t[..|t| - 1];
      }
      if |t| == 0 {
        // the loop condition `text[-1]` on the emptied text
        return Err(IndexError);
      }
      words := Ok(SplitComma(ReplaceCommaSpace(t)));
    }
  }

  // ---------------------------------------------------------------------------
  // Properties

  /** With spaces added after completing, a word starting with spaces loses exactly
      one of them; without, it keeps them. */
  lemma LeadingSpaceDropped(text: string, cursor: nat, separator: string)
    requires cursor <= |text|
    requires TokenStart(text, cursor, separator) < cursor
    requires text[TokenStart(text, cursor, separator)] == ' '
    ensures CurrentToken(text, cursor, separator, true) == text[TokenStart(text, cursor, separator) + 1..cursor]
    ensures CurrentToken(text, cursor, separator, false) == text[TokenStart(text, cursor, separator)..cursor]
    ensures |CurrentToken(text, cursor, separator, false)| == |CurrentToken(text, cursor, separator, true)| + 1
  {
  }

  /** Accepting the word under the cursor, with the cursor at the end of the text,
      removes exactly that word's characters and keeps the text before it. */
  lemma {:induction false} CompletionReplacesToken(text: string, separator: string, addSpace: bool, completion: string)
    requires CurrentToken(text, |text|, separator, addSpace) != ""
    ensures var t := CurrentToken(text, |text|, separator, addSpace);
      text == text[..|text| - |t|] + t &&
      Completed(text, completion, |t|, separator, addSpace)
        == text[..|text| - |t|] + completion + (if addSpace then separator + " " else "")
  {
    var t := CurrentToken(text, |text|, separator, addSpace);
    var k := |text| - |t|;
    assert text[k..|text|] == t;
    assert text == text[..k] + text[k..|text|];
  }

  /** "Mon, Tu" with the cursor at the end has the word "Tu", and accepting
      "Tuesday" gives "Mon, Tuesday, " with the cursor at 14. */
  lemma CompletionExample()
    ensures CurrentToken("Mon, Tu", 7, ",", true) == "Tu"
    ensures Completed("Mon, Tu", "Tuesday", 2, ",", true) == "Mon, Tuesday, "
    ensures |Completed("Mon, Tu", "Tuesday", 2, ",", true)| == 14
  {
    assert TokenStart("Mon, Tu", 7, ",") == 4;
  }

  /** The word under the cursor of "Mon, Tue" at 8 is "Tue"; of "Mon, " at 5 it is empty. */
  lemma TokenExamples()
    ensures CurrentToken("Mon, Tue", 8, ",", true) == "Tue"
    ensures CurrentToken("Mon, ", 5, ",", true) == ""
  {
    assert TokenStart("Mon, Tue", 8, ",") == 4;
    assert TokenStart("Mon, ", 5, ",") == 4;
  }

  /** `getTextList` of "Mon, Tuesday, " is ["Mon", "Tuesday"]. */
  lemma TextListExample()
    ensures TextList("Mon, Tuesday, ") == Ok(["Mon", "Tuesday"])
  {
    var words := ["Mon", "Tuesday"];
    assert ',' !in words[0] && ',' !in words[1];
    RoundTrip(words);
    AcceptedMonTuesday();
  }

  /** Accepting "Mon" and then "Tuesday" builds "Mon, Tuesday, ". */
  lemma AcceptedMonTuesday()
    ensures Accepted(["Mon", "Tuesday"]) == "Mon, Tuesday, "
  {
    AcceptedSnoc([], "Mon");
    AcceptedSnoc(["Mon"], "Tuesday");
    assert [] + ["Mon"] == ["Mon"] && ["Mon"] + ["Tuesday"] == ["Mon", "Tuesday"];
  }

  /** `getTextList` of "a," is ["a"]; of ", ," it raises IndexError. */
  lemma TextListSmallExamples()
    ensures TextList("a,") == Ok(["a"])
    ensures TextList(", ,") == Err(IndexError)
  {
    assert "a,"[..1] == "a";
    SplitCommaPlain("a");
  }

  // ---------------------------------------------------------------------------
  // Round trip: words entered by completion are the words read back

  /** The text after accepting each of `words` in turn, each followed by ", ". */
  function Accepted(words: seq<string>): string
  {
    if |words| == 0 then "" else Accepted(words[..|words| - 1]) + words[|words| - 1] + ", "
  }

  /** The accepted words are the comma-space join of the words, plus ", ". */
  lemma {:induction false} AcceptedIsJoin(words: seq<string>)
    requires |words| > 0
    ensures Accepted(words) == Join(", ", words) + ", "
  {
    if |words| == 1 {
      assert words[..0] == [];
    } else {
      AcceptedIsJoin(words[..|words| - 1]);
      JoinSnoc(", ", words);
    }
  }

  /** After the accepted words, a typed start of a word that holds no comma and
      does not start with a space is the word under the cursor at the end. */
  lemma {:induction false} TypedWordIsToken(words: seq<string>, typed: string)
    requires typed != "" && typed[0] != ' ' && ',' !in typed
    ensures var text := Accepted(words) + typed;
      CurrentToken(text, |text|, ",", true) == typed
  {
    var text := Accepted(words) + typed;
    var a := |Accepted(words)|;
    forall k | a <= k < |text| ensures [text[k]] != "," {
      assert text[k] == typed[k - a];
      assert typed[k - a] in typed;
    }
    var s := TokenStart(text, |text|, ",");
    if |words| == 0 {
      assert a == 0;
      assert s == 0;
    } else {
      var prev := Accepted(words[..|words| - 1]) + words[|words| - 1];
      assert Accepted(words) == prev + ", ";
      assert text == prev + ", " + typed;
      assert text[a - 2] == ',' && text[a - 1] == ' ';
      assert s == a - 1;
    }
    assert text[|text| - |typed|..] == typed;
  }

  /** Typing the start of a word after the accepted words and accepting a
      completion for it appends the completion and ", ": exactly the typed start
      is replaced. */
  lemma TypedWordCompletes(words: seq<string>, typed: string, completion: string)
    requires typed != "" && typed[0] != ' ' && ',' !in typed
    ensures var text := Accepted(words) + typed;
      Completed(text, completion, |CurrentToken(text, |text|, ",", true)|, ",", true) == Accepted(words + [completion])
  {
    TypedWordIsToken(words, typed);
    CompletedAfter(Accepted(words), typed, completion);
    AcceptedSnoc(words, completion);
  }

  /** Accepting a completion for the typed end of the text keeps what precedes it. */
  lemma CompletedAfter(prefix: string, typed: string, completion: string)
    requires typed != ""
    ensures Completed(prefix + typed, completion, |typed|, ",", true) == prefix + completion + ", "
  {
    var text := prefix + typed;
    assert text[..|text| - |typed|] == prefix;
  }

  /** Accepting one more word appends it and ", ". */
  lemma AcceptedSnoc(words: seq<string>, w: string)
    ensures Accepted(words + [w]) == Accepted(words) + w + ", "
  {
    assert (words + [w])[..|words|] == words;
  }

  /** Reading back the text built by accepting `words` gives `words`, provided no
      word holds a comma and the last one is nonempty and does not end in a space. */
  lemma RoundTrip(words: seq<string>)
    requires forall i :: 0 <= i < |words| ==> ',' !in words[i]
    requires |words| > 0 ==> var last := words[|words| - 1]; last != "" && last[|last| - 1] != ' '
    ensures TextList(Accepted(words)) == Ok(words)
  {
    if |words| > 0 {
      AcceptedIsJoin(words);
      var joined := Join(", ", words);
      var last := words[|words| - 1];
      if |words| >= 2 { JoinSnoc(", ", words); }
      assert joined[|joined| - 1] == last[|last| - 1];
      assert TrimTrailing(joined + ", ") == joined by {
        assert (joined + ", ")[..|joined| + 1] == joined + ",";
        assert (joined + ",")[..|joined|] == joined;
      }
      ReplaceJoin(words);
      SplitCommaJoin(words);
    }
  }
}
