/** The browser's pantry: the ordered list of ingredients the user has entered, changed in
    place by the add, remove and clear controls. */
module Pantry {
  import opened Text

  /** The invariant of the pantry: every entry is non-empty and trimmed (it has no white space
      at either end, so it is its own trim, see `Text.TrimFixed`), and no entry occurs twice. */
  predicate Clean(items: seq<string>)
  {
    (forall i :: 0 <= i < |items| ==> items[i] != "" && NoEdgeSpace(items[i])) &&
    (forall i, j :: 0 <= i < j < |items| ==> items[i] != items[j])
  }

  /** The list after adding the text `raw` typed in the input box. */
  function Added(items: seq<string>, raw: string): seq<string>
  {
    var entry := Trim(raw);
    if entry != "" && entry !in items then items + [entry] else items
  }

  /** Where `splice(start, 1)` starts on a list of `len` entries: a negative start counts back
      from the end and stops at the front, a start past the end is the end. */
  function SpliceStart(len: nat, start: int): (p: nat)
    ensures p <= len
  {
    if start < 0 then (if len + start < 0 then 0 else len + start)
    else if start > len then len
    else start
  }

  /** The list after `splice(start, 1)`. */
  function Spliced(items: seq<string>, start: int): seq<string>
  {
    var p := SpliceStart(|items|, start);
    if p < |items| then items[..p] + items[p + 1..] else items
  }

  /** The `data-index` carried by each remove button the template writes, one per entry. */
  function RemoveButtons(items: seq<string>): (r: seq<nat>)
    ensures |r| == |items|
    ensures forall k :: 0 <= k < |r| ==> r[k] < |items|
  {
    seq(|items|, k requires 0 <= k < |items| => k)
  }

  /** Adding appends the trimmed text exactly when it is non-empty and not yet present
      (compared exactly, case included); otherwise the list is unchanged. */
  lemma AddedAppendsOrKeeps(items: seq<string>, raw: string)
    ensures Trim(raw) != "" && Trim(raw) !in items ==> Added(items, raw) == items + [Trim(raw)]
    ensures Trim(raw) == "" || Trim(raw) in items ==> Added(items, raw) == items
    ensures AllSpace(raw) ==> Added(items, raw) == items
  {
    TrimEmpty(raw);
  }

  /** Adding keeps the pantry clean. */
  lemma AddedKeepsClean(items: seq<string>, raw: string)
    requires Clean(items)
    ensures Clean(Added(items, raw))
  {
  }

  /** `splice(start, 1)` on a non-empty list with a start before the end deletes exactly one
      entry: the one at `start`, or for a negative start the one `-start` places from the
      end, or the first when that is before the front. The list is one shorter, the entries
      before it stay where they were and the later ones move down by one. A start at or past
      the end, or an empty list, changes nothing. */
  lemma SplicedShifts(items: seq<string>, start: int)
    ensures start >= |items| || items == [] ==> Spliced(items, start) == items
    ensures start < |items| && items != [] ==>
      var p := if start >= 0 then start else if |items| + start >= 0 then |items| + start else 0;
      |Spliced(items, start)| == |items| - 1 &&
      forall k :: 0 <= k < |items| - 1 ==> Spliced(items, start)[k] == if k < p then items[k] else items[k + 1]
  {
  }

  /** Removing keeps the pantry clean. */
  lemma {:induction false} SplicedKeepsClean(items: seq<string>, start: int)
    requires Clean(items)
    ensures Clean(Spliced(items, start))
  {
    var index := SpliceStart(|items|, start);
    if index < |items| {
      RemovedAtKeepsClean(items, index);
    }
  }

  /** Deleting the entry at a position in range keeps the pantry clean. */
  lemma RemovedAtKeepsClean(items: seq<string>, index: nat)
    requires Clean(items) && index < |items|
    ensures Clean(items[..index] + items[index + 1..])
  {
    var r := items[..index] + items[index + 1..];
    assert forall k :: 0 <= k < |r| ==> r[k] == if k < index then items[k] else items[k + 1];
    forall i, j | 0 <= i < j < |r| ensures r[i] != r[j] {
      var i' := if i < index then i else i + 1;
      var j' := if j < index then j else j + 1;
      assert r[i] == items[i'] && r[j] == items[j'] && i' < j';
    }
    forall i | 0 <= i < |r| ensures r[i] != "" && NoEdgeSpace(r[i]) {
      var i' := if i < index then i else i + 1;
      assert r[i] == items[i'];
    }
  }

  /** Every rendered remove button carries an index in range, so a click removes exactly one
      entry. */
  lemma ButtonRemovesOne(items: seq<string>, k: nat)
    requires k < |RemoveButtons(items)|
    ensures |Spliced(items, RemoveButtons(items)[k])| == |items| - 1
    ensures Clean(items) ==> items[k] !in Spliced(items, RemoveButtons(items)[k])
  {
    if Clean(items) {
      SplicedShifts(items, k);
    }
  }

  // ---------------------------------------------------------------------------------------
  // The markup of the list

  /** The markup `renderPantry` writes for one entry, white space between the tags left out.
      The entry is inserted as it is, so any markup in it becomes part of the list. */
  function EntryMarkup(ingredient: string, index: nat): string
  {
    "<span>" + ingredient + "</span>" + ButtonMarkup(index)
  }

  /** The remove button the template writes after an entry, carrying the entry's index. */
  function ButtonMarkup(index: nat): string
  {
    "<button class=\"remove-ingredient\" data-index=\"" + NatText(index) + "\">&times;</button>"
  }

  /** The start tag of a remove button that removes the last entry. */
  const LastButtonTag: string := "<button class=\"remove-ingredient\" data-index=\"-1\">"

  /** An entry that is itself a remove button: its markup puts a second remove button, with
      `data-index="-1"`, inside the entry's span, and clicking it removes the last entry
      rather than this one. */
  lemma InjectedButton()
    ensures var e := LastButtonTag + "x</button>";
      EntryMarkup(e, 0)[6..6 + |LastButtonTag|] == LastButtonTag &&
      Spliced([e, "a", "b"], -1) == [e, "a"]
  {
    var e := LastButtonTag + "x</button>";
    assert EntryMarkup(e, 0) == "<span>" + LastButtonTag + ("x</button>" + "</span>" + ButtonMarkup(0));
    assert [e, "a", "b"][..2] == [e, "a"];
  }

  /** The character reference that stands for `c` in HTML text, or `c` itself. */
  function EscapeChar(c: char): string
  {
    if c == '&' then "&amp;"
    else if c == '<' then "&lt;"
    else if c == '>' then "&gt;"
    else if c == '"' then "&quot;"
    else if c == '\'' then "&#39;"
    else [c]
  }

  /** An entry written as text rather than markup: no `<` is left in it to open a tag. */
  function Escaped(s: string): (r: string)
    ensures '<' !in r
  {
    if s == [] then "" else EscapeChar(s[0]) + Escaped(s[1..])
  }

  /** The character at the start of HTML text and the number of characters that stand for
      it: one of the five character references above, or a single character. */
  function NextChar(s: string): (r: (char, nat))
    requires s != []
    ensures 1 <= r.1 <= |s|
  {
    if s[0] != '&' then (s[0], 1)
    else if |s| >= 5 && s[1] == 'a' && s[2] == 'm' && s[3] == 'p' && s[4] == ';' then ('&', 5)
    else if |s| >= 4 && s[1] == 'l' && s[2] == 't' && s[3] == ';' then ('<', 4)
    else if |s| >= 4 && s[1] == 'g' && s[2] == 't' && s[3] == ';' then ('>', 4)
    else if |s| >= 6 && s[1] == 'q' && s[2] == 'u' && s[3] == 'o' && s[4] == 't' && s[5] == ';' then ('"', 6)
    else if |s| >= 5 && s[1] == '#' && s[2] == '3' && s[3] == '9' && s[4] == ';' then ('\'', 5)
    else ('&', 1)
  }

  /** What the browser shows for escaped text: the character references read back. */
  function Unescaped(s: string): string
    decreases |s|
  {
    if s == [] then "" else [NextChar(s).0] + Unescaped(s[NextChar(s).1..])
  }

  /** Reading one escaped character back gives the character. */
  lemma UnescapeChar(c: char, rest: string)
    ensures Unescaped(EscapeChar(c) + rest) == [c] + Unescaped(rest)
  {
    var t := EscapeChar(c) + rest;
    assert NextChar(t) == (c, |EscapeChar(c)|);
    assert t[|EscapeChar(c)|..] == rest;
  }

  /** The page shows an escaped entry exactly as it was typed. */
  lemma {:induction false} EscapedRoundTrip(s: string)
    ensures Unescaped(Escaped(s)) == s
  {
    if s != [] {
      UnescapeChar(s[0], Escaped(s[1..]));
      EscapedRoundTrip(s[1..]);
      assert [s[0]] + s[1..] == s;
    }
  }

  /** The markup of one entry with the entry written as text. */
  function SafeEntryMarkup(ingredient: string, index: nat): string
  {
    EntryMarkup(Escaped(ingredient), index)
  }

  /** Whatever an entry holds, its escaped markup is the template's span holding text that
      opens no tag and that the page shows as the entry, followed by the entry's own remove
      button. */
  lemma SafeEntryText(ingredient: string, index: nat)
    ensures exists text ::
      SafeEntryMarkup(ingredient, index) == "<span>" + text + "</span>" + ButtonMarkup(index) &&
      '<' !in text && Unescaped(text) == ingredient
  {
    EscapedRoundTrip(ingredient);
  }

  /** The pantry list held by the page, together with the text of the ingredient input box. */
  class PantryList {
    var items: seq<string>
    var input: string

    ghost predicate Valid()
      reads this
    {
      Clean(items)
    }

    /** The page starts with an empty pantry and an empty input box. */
    constructor ()
      ensures Valid() && items == [] && input == ""
    {
      items := [];
      input := "";
    }

    /** `addIngredient`: adds the trimmed input, clearing the box only when something was added. */
    method Add() returns (added: bool)
      requires Valid()
      modifies this
      ensures Valid()
      ensures items == Added(old(items), old(input))
      ensures added <==> items != old(items)
      ensures input == if added then "" else old(input)
    {
      var entry := Trim(input);
      if entry != "" && entry !in items {
        items := items + [entry];
        input := "";
        added := true;
      } else {
        added := false;
      }
      AddedKeepsClean(old(items), old(input));
    }

    /** The remove button's click handler: `splice(start, 1)`, with the button's `data-index`
        as `start`. */
    method Remove(start: int)
      requires Valid()
      modifies this
      ensures Valid()
      ensures items == Spliced(old(items), start)
      ensures input == old(input)
    {
      var index := SpliceStart(|items|, start);
      if index < |items| {
        items := items[..index] + items[index + 1..];
      }
      SplicedKeepsClean(old(items), start);
    }

    /** The clear button's click handler. */
    method Clear()
      requires Valid()
      modifies this
      ensures Valid()
      ensures items == [] && input == old(input)
    {
      items := [];
    }
  }
}
