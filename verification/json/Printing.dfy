// The printers as they write: text is appended to a stream, member by member.
module JsonPrinting {
  import opened JsonValues
  import opened JsonTexts

  class Stream {
    var text: string

    constructor ()
      ensures text == ""
    {
      text := "";
    }

    method Put(s: string)
      modifies this
      ensures text == old(text) + s
    {
      text := text + s;
    }
  }

  // ---------- escaping

  lemma {:induction false} EscapeMore(s: string, c: char)
    ensures Escape(s + [c]) == Escape(s) + EscapeChar(c)
  {
    if s == "" {
      assert s + [c] == [c];
      assert Escape([c]) == EscapeChar(c) + Escape("");
    } else {
      assert (s + [c])[1..] == s[1..] + [c];
      EscapeMore(s[1..], c);
    }
  }

  lemma CutPrefix(s: string, n: nat)
    requires n <= |s| && '\0' !in s[..n] && (n < |s| ==> s[n] == '\0')
    ensures s[..n] == Cut(s)
  {
    var c := Cut(s);
    assert forall i :: 0 <= i < n ==> s[i] == s[..n][i];
    assert forall i :: 0 <= i < |c| ==> s[i] == c[i];
    assert |c| == n;
  }

  lemma EscapeNothing(s: string)
    requires s == ""
    ensures Escape(s) == ""
  {
  }

  // the text between begin and cur is waiting to be appended
  lemma EscapeStep(cs: string, es: string, begin: nat, cur: nat)
    requires begin <= cur < |cs| && es + cs[begin..cur] == Escape(cs[..cur])
    ensures es + cs[begin..cur] + EscapeChar(cs[cur]) == Escape(cs[..cur + 1])
  {
    assert cs[..cur + 1] == cs[..cur] + [cs[cur]];
    EscapeMore(cs[..cur], cs[cur]);
  }

  // the characters that are written as two
  predicate Special(c: char)
  {
    c == '"' || c == '\\' || c == '/' || c == '\U{0008}' || c == '\U{000C}' || c == '\n' || c == '\r' || c == '\t'
  }

  lemma OrdinaryStays(c: char)
    ensures Special(c) <==> EscapeChar(c) != [c]
  {
  }

  // ---------- what escaping writes, by the characters themselves

  // A mark and a backslash get a backslash in front, five control characters become letters behind one, and any other
  // character stays.
  ghost predicate Written(c: char, piece: string)
  {
    if c in "\"\\/" then piece == ['\\', c]
    else if c in "\U{0008}\U{000C}\n\r\t" then
      && |piece| == 2 && piece[0] == '\\'
      && exists k {:trigger "bfnrt"[k]} :: 0 <= k < 5 && "\U{0008}\U{000C}\n\r\t"[k] == c && "bfnrt"[k] == piece[1]
    else piece == [c]
  }

  ghost predicate PieceAt(es: string, s: string, cuts: seq<nat>, i: nat)
  {
    && i < |s| && i + 1 < |cuts| && cuts[i] <= cuts[i + 1] <= |es|
    && Written(s[i], es[cuts[i]..cuts[i + 1]])
  }

  // cuts tells where the pieces for the characters of s begin and end
  ghost predicate InPieces(es: string, s: string, cuts: seq<nat>)
  {
    && |cuts| == |s| + 1 && cuts[0] == 0 && cuts[|s|] == |es|
    && forall i :: 0 <= i < |s| ==> PieceAt(es, s, cuts, i)
  }

  ghost predicate NoControls(es: string)
  {
    forall i :: 0 <= i < |es| ==> es[i] !in "\U{0008}\U{000C}\n\r\t"
  }

  lemma CharWritten(c: char)
    ensures Written(c, EscapeChar(c)) && NoControls(EscapeChar(c)) && |EscapeChar(c)| > 0
  {
    if c in "\U{0008}\U{000C}\n\r\t" {
      var k := if c == '\U{0008}' then 0 else if c == '\U{000C}' then 1 else if c == '\n' then 2
               else if c == '\r' then 3 else 4;
      assert "\U{0008}\U{000C}\n\r\t"[k] == c && "bfnrt"[k] == EscapeChar(c)[1];
    }
  }

  lemma {:induction false} EscapedInPieces(s: string) returns (cuts: seq<nat>)
    ensures InPieces(Escape(s), s, cuts) && NoControls(Escape(s))
  {
    if s == "" {
      return [0];
    }
    var n := |s| - 1;
    var c, front := s[n], s[..n];
    cuts := EscapedInPieces(front);
    assert s == front + [c];
    EscapeMore(front, c);
    CharWritten(c);
    MorePieces(Escape(front), front, cuts, c, EscapeChar(c));
    cuts := cuts + [|Escape(s)|];
  }

  lemma MorePieces(es: string, s: string, cuts: seq<nat>, c: char, piece: string)
    requires InPieces(es, s, cuts) && Written(c, piece)
    ensures InPieces(es + piece, s + [c], cuts + [|es + piece|])
  {
    var t, all, more := s + [c], es + piece, cuts + [|es + piece|];
    forall i | 0 <= i < |t| ensures PieceAt(all, t, more, i) {
      if i < |s| {
        assert PieceAt(es, s, cuts, i);
        assert all[cuts[i]..cuts[i + 1]] == es[cuts[i]..cuts[i + 1]];
      } else {
        assert all[|es|..|all|] == piece;
      }
    }
  }

  method EscapeString(s: string) returns (es: string)
    ensures es == Escape(Cut(s)) && NoControls(es) && exists cuts :: InPieces(es, Cut(s), cuts)
  {
    hide *;
    es := "";
    var cs := s + ['\0'];
    var cur, begin := 0, 0;
    EscapeNothing(cs[..0]);
    while cs[cur] != '\0'
      invariant begin <= cur <= |s| && '\0' !in cs[..cur]
      invariant es + cs[begin..cur] == Escape(cs[..cur])
      decreases |s| - cur
    {
      EscapeStep(cs, es, begin, cur);
      assert cs[..cur + 1] == cs[..cur] + [cs[cur]];
      var c := cs[cur];
      if Special(c) {
        if begin < cur { es := es + cs[begin..cur]; }
        es := es + EscapeChar(c);
        cur := cur + 1;
        begin := cur;
      } else {
        OrdinaryStays(c);
        assert cs[begin..cur + 1] == cs[begin..cur] + [c];
        cur := cur + 1;
      }
    }
    if begin < cur { es := es + cs[begin..cur]; }
    assert cs[..cur] == s[..cur];
    CutPrefix(s, cur);
    ghost var cuts := EscapedInPieces(Cut(s));
  }

  // ---------- plain

  method PrintIndent(stream: Stream, size: int)
    modifies stream
    ensures stream.text == old(stream.text) + Indent(size)
  {
    var left := size;
    while left > 0
      invariant stream.text + Indent(left) == old(stream.text) + Indent(size)
    {
      ghost var before := stream.text;
      stream.Put("    ");
      assert before + Indent(left) == stream.text + Indent(left - 1);
      left := left - 1;
    }
    assert stream.text + Indent(left) == stream.text;
  }

  method PrintQuoted(stream: Stream, s: string)
    modifies stream
    ensures stream.text == old(stream.text) + Quoted(s)
  {
    var es := EscapeString(s);
    stream.Put("\"" + es + "\"");
  }

  // the text of a value that is not a list
  lemma ScalarText(v: Json, style: Style, depth: int)
    requires !v.Array? && !v.Object?
    ensures Text(v, style, depth) == match v
              case Null => "null"
              case Integer(n) => IntText(n)
              case Float(f) => style.image(f)
              case String(t) => Quoted(t)
              case Boolean(b) => if b then "true" else "false"
  {
  }

  // what is left to write from item i on
  function ItemsFrom(items: seq<Json>, i: nat, style: Style, depth: int): string
  {
    if i < |items| then ItemTexts(items[i..], style, depth) else ""
  }

  lemma ItemsFromStep(items: seq<Json>, i: nat, style: Style, depth: int)
    requires i < |items|
    ensures ItemsFrom(items, i, style, depth)
         == Text(items[i], style, depth + 1) + if i + 1
             == |items| then "" else "," + style.Next(depth) + ItemsFrom(items, i + 1, style, depth)
  {
    assert items[i..][1..] == items[i + 1..];
  }

  function EntriesFrom(entries: seq<Entry>, i: nat, style: Style, depth: int): string
  {
    if i < |entries| then EntryTexts(entries[i..], style, depth) else ""
  }

  lemma EntriesFromStep(entries: seq<Entry>, i: nat, style: Style, depth: int)
    requires i < |entries|
    ensures EntriesFrom(entries, i, style, depth)
         == Quoted(entries[i].key) + " : " + Text(entries[i].value, style, depth + 1)
            + if i + 1 == |entries| then "" else "," + style.Next(depth) + EntriesFrom(entries, i + 1, style, depth)
  {
    hide Quoted, Text, Style.Next;
    assert entries[i..][1..] == entries[i + 1..];
    if i + 1 == |entries| {
      assert EntryTexts(entries[i..], style, depth) == EntryText(entries[i], style, depth);
    } else {
      assert EntriesFrom(entries, i, style, depth)
          == EntryText(entries[i], style, depth)
          + ("," + style.Next(depth) + EntriesFrom(entries, i + 1, style, depth));
    }
  }

  lemma ListText(v: Json, style: Style, depth: int)
    ensures v.Array? ==>
      Text(v, style, depth) ==
      "[" + (if v.items == [] then style.Hollow(depth)
             else style.Open(depth) + ItemsFrom(v.items, 0, style, depth) + style.Close(depth)) + "]"
    ensures v.Object? ==>
      Text(v, style, depth) ==
      "{" + (if v.entries == [] then style.Hollow(depth)
             else style.Open(depth) + EntriesFrom(v.entries, 0, style, depth) + style.Close(depth)) + "}"
  {
    hide Indent;
    assert v.Array? ==> v.items[0..] == v.items;
    assert v.Object? ==> v.entries[0..] == v.entries;
  }

  lemma PlainGaps(style: Style, depth: int)
    requires !style.indented
    ensures style.Open(depth) == " " && style.Next(depth) == " " && style.Close(depth) == " "
      && style.Hollow(depth) == ""
  {
  }

  method PrintScalar(v: Json, stream: Stream, style: Style, ghost depth: int)
    requires !v.Array? && !v.Object?
    modifies stream
    ensures stream.text == old(stream.text) + Text(v, style, depth)
  {
    ScalarText(v, style, depth);
    match v
    case Null => stream.Put("null");
    case Integer(n) => stream.Put(IntText(n));
    case Float(f) => stream.Put(style.image(f));
    case String(t) => PrintQuoted(stream, t);
    case Boolean(b) => stream.Put(if b then "true" else "false");
  }

  method PrintPlain(v: Json, stream: Stream, style: Style, ghost depth: int)
    requires !style.indented
    modifies stream
    ensures stream.text == old(stream.text) + Text(v, style, depth)
    decreases v, 1
  {
    hide *;
    match v
    case Array(items) => PrintArrayPlain(items, stream, style, depth);
    case Object(entries) => PrintObjectPlain(entries, stream, style, depth);
    case _ => PrintScalar(v, stream, style, depth);
  }

  method PrintArrayPlain(items: seq<Json>, stream: Stream, style: Style, ghost depth: int)
    requires !style.indented
    modifies stream
    ensures stream.text == old(stream.text) + Text(Array(items), style, depth)
    decreases items, 1
  {
    hide *;
    ListText(Array(items), style, depth);
    PlainGaps(style, depth);
    if items == [] {
      stream.Put("[]");
      assert "[]" == "[" + "" + "]";
      return;
    }
    stream.Put("[ ");
    ghost var start := stream.text;
    var last := |items| - 1;
    var i := 0;
    while i < |items|
      invariant 0 <= i <= |items|
      invariant stream.text + ItemsFrom(items, i, style, depth) == start + ItemsFrom(items, 0, style, depth)
    {
      ItemsFromStep(items, i, style, depth);
      ghost var before, rest := stream.text, ItemsFrom(items, i + 1, style, depth);
      NoneFrom(items, [], i + 1, style, depth);
      PrintPlain(items[i], stream, style, depth + 1);
      if i != last {
        stream.Put(", ");
      }
      assert stream.text + rest == before + ItemsFrom(items, i, style, depth);
      i := i + 1;
    }
    NoneFrom(items, [], i, style, depth);
    assert stream.text + "" == stream.text;
    stream.Put(" ]");
  }

  method PrintObjectPlain(entries: seq<Entry>, stream: Stream, style: Style, ghost depth: int)
    requires !style.indented
    modifies stream
    ensures stream.text == old(stream.text) + Text(Object(entries), style, depth)
    decreases entries, 1
  {
    hide *;
    ListText(Object(entries), style, depth);
    PlainGaps(style, depth);
    if entries == [] {
      stream.Put("{}");
      assert "{}" == "{" + "" + "}";
      return;
    }
    stream.Put("{ ");
    ghost var start := stream.text;
    var last := |entries| - 1;
    var i := 0;
    while i < |entries|
      invariant 0 <= i <= |entries|
      invariant stream.text + EntriesFrom(entries, i, style, depth) == start + EntriesFrom(entries, 0, style, depth)
    {
      EntriesFromStep(entries, i, style, depth);
      ghost var before, rest := stream.text, EntriesFrom(entries, i + 1, style, depth);
      NoneFrom([], entries, i + 1, style, depth);
      PrintQuoted(stream, entries[i].key);
      stream.Put(" : ");
      PrintPlain(entries[i].value, stream, style, depth + 1);
      if i != last {
        stream.Put(", ");
      }
      assert stream.text + rest == before + EntriesFrom(entries, i, style, depth);
      i := i + 1;
    }
    NoneFrom([], entries, i, style, depth);
    assert stream.text + "" == stream.text;
    stream.Put(" }");
  }

  lemma NoneFrom(items: seq<Json>, entries: seq<Entry>, i: nat, style: Style, depth: int)
    ensures i >= |items| ==> ItemsFrom(items, i, style, depth) == ""
    ensures i >= |entries| ==> EntriesFrom(entries, i, style, depth) == ""
  {
  }

  // ---------- indented

  method Print(v: Json, stream: Stream, style: Style, indent: int, indentFirst: bool)
    requires style.indented
    modifies stream
    ensures stream.text == old(stream.text) + (if indentFirst then Indent(indent) else "") + Text(v, style, indent)
    decreases v, 1
  {
    hide *;
    if indentFirst {
      PrintIndent(stream, indent);
    }
    match v
    case Array(items) => PrintArray(items, stream, style, indent);
    case Object(entries) => PrintObject(entries, stream, style, indent);
    case _ => PrintScalar(v, stream, style, indent);
  }

  // the lines the indented printer writes from item i on
  function ItemLines(items: seq<Json>, i: nat, style: Style, depth: int): string
  {
    if i < |items| then Indent(depth + 1) + ItemsFrom(items, i, style, depth) + "\n" else ""
  }

  lemma ItemLinesStep(items: seq<Json>, i: nat, style: Style, depth: int)
    requires i < |items| && style.indented
    ensures ItemLines(items, i, style, depth)
         == Indent(depth + 1) + Text(items[i], style, depth + 1) + (if i + 1 == |items| then "" else ",") + "\n"
            + ItemLines(items, i + 1, style, depth)
  {
    hide ItemsFrom, Indent, Text;
    ItemsFromStep(items, i, style, depth);
  }

  function EntryLines(entries: seq<Entry>, i: nat, style: Style, depth: int): string
  {
    if i < |entries| then Indent(depth + 1) + EntriesFrom(entries, i, style, depth) + "\n" else ""
  }

  lemma EntryLinesStep(entries: seq<Entry>, i: nat, style: Style, depth: int)
    requires i < |entries| && style.indented
    ensures EntryLines(entries, i, style, depth)
         == Indent(depth + 1) + Quoted(entries[i].key) + " : " + Text(entries[i].value, style, depth + 1)
            + (if i + 1 == |entries| then "" else ",") + "\n" + EntryLines(entries, i + 1, style, depth)
  {
    hide EntriesFrom, Indent, Text, Quoted;
    EntriesFromStep(entries, i, style, depth);
  }

  lemma ListLines(v: Json, style: Style, depth: int)
    requires style.indented
    ensures v.Array? ==> Text(v, style, depth) == "[\n" + ItemLines(v.items, 0, style, depth) + Indent(depth) + "]"
                         && ItemLines(v.items, |v.items|, style, depth) == ""
    ensures v.Object? ==> Text(v, style, depth) == "{\n" + EntryLines(v.entries, 0, style, depth) + Indent(depth) + "}"
                          && EntryLines(v.entries, |v.entries|, style, depth) == ""
  {
    hide Text, ItemsFrom, EntriesFrom, Indent;
    ListText(v, style, depth);
  }

  // The loop is not entered for an empty list, so that what stands before its end is never looked at.
  method PrintArray(items: seq<Json>, stream: Stream, style: Style, indent: int)
    requires style.indented
    modifies stream
    ensures stream.text == old(stream.text) + Text(Array(items), style, indent)
    decreases items, 1
  {
    hide *;
    ListLines(Array(items), style, indent);
    stream.Put("[\n");
    ghost var start := stream.text;
    var last := |items| - 1;
    var i := 0;
    while i < |items|
      invariant 0 <= i <= |items|
      invariant stream.text + ItemLines(items, i, style, indent) == start + ItemLines(items, 0, style, indent)
    {
      ItemLinesStep(items, i, style, indent);
      ghost var before, rest := stream.text, ItemLines(items, i + 1, style, indent);
      Print(items[i], stream, style, indent + 1, true);
      if i != last {
        stream.Put(",");
      }
      stream.Put("\n");
      assert stream.text + rest == before + ItemLines(items, i, style, indent);
      i := i + 1;
    }
    assert stream.text + "" == stream.text;
    PrintIndent(stream, indent);
    stream.Put("]");
  }

  method PrintObject(entries: seq<Entry>, stream: Stream, style: Style, indent: int)
    requires style.indented
    modifies stream
    ensures stream.text == old(stream.text) + Text(Object(entries), style, indent)
    decreases entries, 1
  {
    hide *;
    ListLines(Object(entries), style, indent);
    stream.Put("{\n");
    ghost var start := stream.text;
    var last := |entries| - 1;
    var i := 0;
    while i < |entries|
      invariant 0 <= i <= |entries|
      invariant stream.text + EntryLines(entries, i, style, indent) == start + EntryLines(entries, 0, style, indent)
    {
      EntryLinesStep(entries, i, style, indent);
      ghost var before, rest := stream.text, EntryLines(entries, i + 1, style, indent);
      PrintIndent(stream, indent + 1);
      PrintQuoted(stream, entries[i].key);
      stream.Put(" : ");
      Print(entries[i].value, stream, style, indent + 1, false);
      ghost var line := Indent(indent + 1) + Quoted(entries[i].key) + " : " + Text(entries[i].value, style, indent + 1);
      assert stream.text == before + line;
      if i != last {
        stream.Put(",");
      }
      stream.Put("\n");
      assert stream.text + rest == before + EntryLines(entries, i, style, indent);
      i := i + 1;
    }
    assert stream.text + "" == stream.text;
    PrintIndent(stream, indent);
    stream.Put("}");
  }
}
