/**
 print_array and print_object of contrib/cJSON/cJSON.c: the entries are rendered first, then
 composed into a buffer whose size was added up on the way. `size` counts the terminator.
 */
module JsonPrinter {
  import opened Common
  import opened Json
  import JsonLayout
  import JsonRoundTrip
  import opened JsonText

  /** The lengths of some texts plus a fixed amount for each. */
  function Total(entries: seq<string>, each: nat): nat {
    if entries == [] then 0
    else Total(entries[..|entries| - 1], each) + |entries[|entries| - 1]| + each
  }

  lemma TotalStep(entries: seq<string>, each: nat, i: nat)
    requires i < |entries|
    ensures Total(entries[..i + 1], each) == Total(entries[..i], each) + |entries[i]| + each
  {
    assert entries[..i + 1][..i] == entries[..i];
  }

  lemma TotalMore(entries: seq<string>, each: nat, s: string)
    ensures Total(entries + [s], each) == Total(entries, each) + |s| + each
  {
    assert (entries + [s])[..|entries|] == entries;
  }

  ghost function Entries(kids: Kids, depth: nat, fmt: bool): seq<string>
    requires WholeKids(kids)
  {
    if kids.End? then [] else [PrintValue(kids.value, depth, fmt)] + Entries(kids.next, depth, fmt)
  }

  ghost function Names(kids: Kids): seq<string> {
    if kids.End? then [] else [if kids.name.Some? then PrintString(kids.name.value) else []] + Names(kids.next)
  }

  /** cJSON_Print and cJSON_PrintUnformatted: the text has the layout that goes with each of them. */
  method WriteDocument(v: Value, fmt: bool) returns (out: string)
    requires Whole(v)
    ensures out == PrintValue(v, 0, fmt)
    ensures JsonRoundTrip.Shaped(v) ==> out == JsonLayout.Text(JsonRoundTrip.Printed(v, 0, fmt), [])
  {
    hide PrintValue, JsonRoundTrip.Printed, JsonLayout.Text, JsonRoundTrip.Shaped, Whole;
    out := WriteValue(v, 0, fmt);
    if JsonRoundTrip.Shaped(v) {
      JsonRoundTrip.PrintedText(v, 0, fmt, []);
      assert out + [] == out;
    }
  }

  /** print_value */
  method WriteValue(v: Value, depth: nat, fmt: bool) returns (out: string)
    requires Whole(v)
    ensures out == PrintValue(v, depth, fmt)
    decreases v
  {
    hide PrintItems, PrintMembers, PrintString, PrintNumber;
    match v {
      case Null => out := "null";
      case False => out := "false";
      case True => out := "true";
      case Number(k, _) => out := PrintNumber(k);
      case String(text) =>
        var size;
        out, size := WriteString(text);
      case Array(kids) =>
        var size;
        out, size := WriteArray(kids, depth, fmt);
      case Object(kids) =>
        var size;
        out, size := WriteObject(kids, depth, fmt);
    }
  }

  /** print_array */
  method WriteArray(kids: Kids, depth: nat, fmt: bool) returns (out: string, size: nat)
    requires WholeKids(kids)
    ensures out == "[" + PrintItems(kids, depth + 1, fmt) + "]" && |out| + 1 <= size
    decreases kids
  {
    hide PrintItems, PrintValue, Total, Whole, Entries, WholeKids;
    var each := if fmt then 3 else 2;
    size := 5;
    var entries: seq<string> := [];
    var child := kids;
    TotalNone(each);
    ghost var all := Entries(kids, depth + 1, fmt);
    assert [] + all == all;
    while child.Kid?
      invariant WholeKids(child) && (child == kids || child < kids)
      invariant all == entries + Entries(child, depth + 1, fmt) && size == 5 + Total(entries, each)
      decreases child
    {
      EntriesStep(child, depth + 1, fmt, entries);
      var ret := WriteValue(child.value, depth + 1, fmt);
      TotalMore(entries, each, ret);
      entries := entries + [ret];
      size := size + |ret| + each;
      child := child.next;
    }
    EntriesNone(depth + 1, fmt);
    assert entries + [] == entries;
    out := ComposeArray(kids, depth + 1, fmt, entries, each);
  }

  lemma EntriesStep(kids: Kids, depth: nat, fmt: bool, before: seq<string>)
    requires WholeKids(kids) && kids.Kid?
    ensures Whole(kids.value) && WholeKids(kids.next)
    ensures before + Entries(kids, depth, fmt) == before + [PrintValue(kids.value, depth, fmt)]
      + Entries(kids.next, depth, fmt)
  {
    hide PrintValue;
  }

  lemma EntriesNone(depth: nat, fmt: bool)
    ensures Entries(End, depth, fmt) == [] && Names(End) == []
  {
  }

  lemma TotalNone(each: nat)
    ensures Total([], each) == 0
  {
  }

  method ComposeArray(kids: Kids, depth: nat, fmt: bool, entries: seq<string>, each: nat) returns (out: string)
    requires WholeKids(kids) && entries == Entries(kids, depth, fmt) && each == if fmt then 3 else 2
    ensures out == "[" + PrintItems(kids, depth, fmt) + "]" && |out| <= 2 + Total(entries, each)
  {
    hide PrintItems, PrintValue, Total, Whole, WholeKids, Entries, When;
    out := "[";
    ghost var left := kids;
    var i := 0;
    TotalNone(each);
    assert entries[0..] == entries && entries[..0] == [];
    EntryHead(left, depth, fmt);
    while i < |entries|
      invariant i <= |entries| && WholeKids(left) && entries[i..] == Entries(left, depth, fmt)
        && (left.Kid? <==> i < |entries|)
      invariant "[" + PrintItems(kids, depth, fmt) == out + PrintItems(left, depth, fmt)
      invariant |out| <= 1 + Total(entries[..i], each)
    {
      TotalStep(entries, each, i);
      EntryHead(left, depth, fmt);
      ItemsStep(left, depth, fmt, out);
      assert entries[i..][1..] == entries[i + 1..] && entries[i..][0] == entries[i];
      EntryHead(left.next, depth, fmt);
      out := ComposeItem(out, entries[i], i != |entries| - 1, fmt);
      left := left.next;
      i := i + 1;
    }
    assert entries[..|entries|] == entries && out + [] == out;
    ItemsNone(depth, fmt);
    out := out + "]";
  }

  /** One round of the composing loop. */
  method ComposeItem(out: string, entry: string, more: bool, fmt: bool) returns (r: string)
    ensures r == out + entry + When(more, "," + When(fmt, " ")) && |r| <= |out| + |entry| + if fmt then 3 else 2
  {
    r := out + entry;
    if more {
      r := r + ",";
      if fmt {
        r := r + " ";
      }
    }
  }

  lemma EntryHead(kids: Kids, depth: nat, fmt: bool)
    requires WholeKids(kids)
    ensures kids.Kid? <==> Entries(kids, depth, fmt) != []
    ensures kids.Kid? ==>
              && Whole(kids.value) && WholeKids(kids.next)
              && Entries(kids, depth, fmt)[0] == PrintValue(kids.value, depth, fmt)
                && Entries(kids, depth, fmt)[1..] == Entries(kids.next, depth, fmt)
  {
    hide PrintValue;
  }

  lemma ItemsNone(depth: nat, fmt: bool)
    ensures PrintItems(End, depth, fmt) == []
  {
  }

  lemma ItemsStep(kids: Kids, depth: nat, fmt: bool, out: string)
    requires WholeKids(kids) && kids.Kid?
    ensures out + PrintItems(kids, depth, fmt) ==
            out + PrintValue(kids.value, depth, fmt) + When(kids.next.Kid?, "," + When(fmt, " "))
              + PrintItems(kids.next, depth, fmt)
  {
    hide PrintValue;
  }

  /** print_object */
  method WriteObject(kids: Kids, depth: nat, fmt: bool) returns (out: string, size: nat)
    requires WholeKids(kids)
    ensures out == "{" + When(fmt, [NEWLINE]) + PrintMembers(kids, depth + 1, fmt) + When(fmt, Tabs(depth)) + "}"
      && |out| + 1 <= size
    decreases kids
  {
    hide PrintMembers, PrintValue, PrintString, Total, Whole, WholeKids, Entries, Names, Tabs;
    var deep := depth + 1;
    var each := if fmt then 4 + deep else 2;
    size := if fmt then 7 + deep else 7;
    ghost var base := size;
    var names: seq<string>, entries: seq<string> := [], [];
    var child := kids;
    TotalNone(each);
    TotalNone(0);
    ghost var all, allNames := Entries(kids, deep, fmt), Names(kids);
    assert [] + all == all && [] + allNames == allNames;
    while child.Kid?
      invariant WholeKids(child) && (child == kids || child < kids)
      invariant all == entries + Entries(child, deep, fmt) && allNames == names + Names(child)
      invariant size == base + Total(entries, each) + Total(names, 0)
      decreases child
    {
      EntriesStep(child, deep, fmt, entries);
      NamesStep(child, names);
      var str := WriteName(child.name);
      var ret := WriteValue(child.value, deep, fmt);
      TotalMore(entries, each, ret);
      TotalMore(names, 0, str);
      names, entries := names + [str], entries + [ret];
      size := size + |ret| + |str| + each;
      child := child.next;
    }
    EntriesNone(deep, fmt);
    assert entries + [] == entries && names + [] == names;
    out := ComposeObject(kids, deep, fmt, names, entries, each);
  }

  function NameText(name: Option<string>): string {
    if name.Some? then PrintString(name.value) else []
  }

  method WriteName(name: Option<string>) returns (str: string)
    ensures str == NameText(name)
  {
    if name.Some? {
      var size;
      str, size := WriteString(name.value);
    } else {
      str := [];
    }
  }

  lemma NamesStep(kids: Kids, before: seq<string>)
    requires kids.Kid?
    ensures before + Names(kids) == before + [NameText(kids.name)] + Names(kids.next)
  {
    hide PrintString;
  }

  method ComposeObject(kids: Kids, depth: nat, fmt: bool, names: seq<string>, entries: seq<string>, each: nat)
      returns (out: string)
    requires WholeKids(kids) && names == Names(kids) && entries == Entries(kids, depth, fmt)
      && each == (if fmt then 4 + depth else 2) && depth > 0
    ensures out == "{" + When(fmt, [NEWLINE]) + PrintMembers(kids, depth, fmt) + When(fmt, Tabs(depth - 1)) + "}"
    ensures |out| <= (if fmt then 2 + depth else 2) + Total(entries, each) + Total(names, 0)
  {
    hide PrintMembers, PrintValue, PrintString, Total, Whole, WholeKids, Entries, Names, Tabs;
    out := "{";
    if fmt {
      out := out + [NEWLINE];
    }
    var open := out;
    out := ComposeMembers(kids, depth, fmt, names, entries, each, open);
    if fmt {
      out := WriteTabs(out, depth - 1);
    } else {
      assert open == "{" + When(fmt, [NEWLINE]) && out + When(fmt, Tabs(depth - 1)) == out;
    }
    out := out + "}";
  }

  /** The composing loop, from what has been written before it. */
  method ComposeMembers(kids: Kids, depth: nat, fmt: bool, names: seq<string>, entries: seq<string>, each: nat,
      open: string) returns (out: string)
    requires WholeKids(kids) && names == Names(kids) && entries == Entries(kids, depth, fmt)
      && each == if fmt then 4 + depth else 2
    ensures out == open + PrintMembers(kids, depth, fmt) && |out| <= |open| + Total(entries, each) + Total(names, 0)
  {
    hide PrintMembers, PrintValue, PrintString, Total, Whole, WholeKids, Entries, Names, Tabs, When;
    out := open;
    ghost var left := kids;
    var i := 0;
    TotalNone(each);
    TotalNone(0);
    EntryHead(kids, depth, fmt);
    SameLength(kids, depth, fmt);
    assert entries[0..] == entries && names[0..] == names && entries[..0] == [] && names[..0] == [];
    while i < |entries|
      invariant i <= |entries| == |names| && WholeKids(left) && entries[i..] == Entries(left, depth, fmt)
        && names[i..] == Names(left)
      invariant left.Kid? <==> i < |entries|
      invariant open + PrintMembers(kids, depth, fmt) == out + PrintMembers(left, depth, fmt)
      invariant |out| <= |open| + Total(entries[..i], each) + Total(names[..i], 0)
    {
      TotalStep(entries, each, i);
      TotalStep(names, 0, i);
      EntryHead(left, depth, fmt);
      NameHead(left);
      MembersStep(left, depth, fmt, out);
      assert entries[i..][1..] == entries[i + 1..] && names[i..][1..] == names[i + 1..];
      assert entries[i..][0] == entries[i] && names[i..][0] == names[i];
      EntryHead(left.next, depth, fmt);
      out := ComposeMember(out, names[i], entries[i], i != |entries| - 1, depth, fmt);
      left := left.next;
      i := i + 1;
    }
    assert entries[..|entries|] == entries && names[..|names|] == names;
    NoMembers(depth, fmt);
    assert out + [] == out;
  }

  lemma NameHead(kids: Kids)
    requires kids.Kid?
    ensures Names(kids) != [] && Names(kids)[0] == NameText(kids.name) && Names(kids)[1..] == Names(kids.next)
  {
    hide PrintString;
  }

  /** One round of the composing loop. */
  method ComposeMember(out: string, name: string, entry: string, more: bool, depth: nat, fmt: bool) returns (r: string)
    ensures r == out + When(fmt, Tabs(depth)) + name + ":" + When(fmt, [TAB]) + entry + When(more, ",")
      + When(fmt, [NEWLINE])
    ensures |r| <= |out| + |name| + |entry| + if fmt then 4 + depth else 2
  {
    r := out;
    if fmt {
      r := WriteTabs(r, depth);
    }
    r := r + name + ":";
    if fmt {
      r := r + [TAB];
    }
    r := r + entry;
    if more {
      r := r + ",";
    }
    if fmt {
      r := r + [NEWLINE];
    }
  }

  method WriteTabs(out: string, n: nat) returns (r: string)
    ensures r == out + Tabs(n)
  {
    r := out;
    var j := 0;
    while j < n
      invariant j <= n && r == out + Tabs(j)
    {
      r := r + [TAB];
      j := j + 1;
    }
  }

  lemma {:induction false} SameLength(kids: Kids, depth: nat, fmt: bool)
    requires WholeKids(kids)
    ensures |Names(kids)| == |Entries(kids, depth, fmt)|
  {
    if kids.Kid? {
      SameLength(kids.next, depth, fmt);
    }
  }

  lemma MembersStep(kids: Kids, depth: nat, fmt: bool, out: string)
    requires WholeKids(kids) && kids.Kid?
    ensures out + PrintMembers(kids, depth, fmt) ==
            out + When(fmt, Tabs(depth)) + NameText(kids.name) + ":" + When(fmt, [TAB])
              + PrintValue(kids.value, depth, fmt)
            + When(kids.next.Kid?, ",") + When(fmt, [NEWLINE]) + PrintMembers(kids.next, depth, fmt)
  {
    hide PrintValue, PrintString, Tabs, When;
    var a, b, d := When(fmt, Tabs(depth)), NameText(kids.name), When(fmt, [TAB]);
    var v, k, l := PrintValue(kids.value, depth, fmt), When(kids.next.Kid?, ","), When(fmt, [NEWLINE]);
    Append(out, a, b, ":", d, v, k, l, PrintMembers(kids.next, depth, fmt));
  }

  lemma Append(out: string, a: string, b: string, c: string, d: string, e: string, f: string, g: string, h: string)
    ensures out + ((a + b + c + d) + e + f + g + h) == out + a + b + c + d + e + f + g + h
  {
    var n := a + b + c + d;
    assert out + n == out + a + b + c + d;
    assert out + (n + e + f + g + h) == out + n + e + f + g + h;
  }
}
