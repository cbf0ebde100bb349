/**
 * The markup side of ljdump.py: `saxutils.escape` as `dumpelement` uses it,
 * the recursive tag writer `dumpelement` (ljdump.py:86-105) with the file
 * header of `writedump` (ljdump.py:107-111), and `gettext` (ljdump.py:127-130).
 */
module Markup {
  import opened Wrappers

  // ---------------------------------------------------------------------
  // Escaping

  /** What `saxutils.escape` makes of one character. */
  function EscapeChar(c: char): string
  {
    if c == '&' then "&amp;" else if c == '<' then "&lt;" else if c == '>' then "&gt;" else [c]
  }

  /** `saxutils.escape(s)`: `&`, `<` and `>` become entity references. */
  function Escape(s: string): (r: string)
    ensures '<' !in r && '>' !in r
    ensures |r| >= |s|
  {
    if s == [] then [] else EscapeChar(s[0]) + Escape(s[1..])
  }

  /** The reading of escaped text: the three entity references become their characters again. */
  function Unescape(s: string): string
  {
    if s == [] then []
    else if |s| >= 5 && s[..5] == "&amp;" then "&" + Unescape(s[5..])
    else if |s| >= 4 && s[..4] == "&lt;" then "<" + Unescape(s[4..])
    else if |s| >= 4 && s[..4] == "&gt;" then ">" + Unescape(s[4..])
    else [s[0]] + Unescape(s[1..])
  }

  /** Escaping loses nothing: every text reads back from its escaped form. */
  lemma {:induction false} UnescapeEscape(s: string)
    ensures Unescape(Escape(s)) == s
  {
    if s != [] {
      var e := EscapeChar(s[0]);
      var rest := Escape(s[1..]);
      var t := e + rest;
      UnescapeEscape(s[1..]);
      assert t[..|e|] == e && t[|e|..] == rest;
      if s[0] == '&' {
        assert t[..5] == "&amp;";
      } else if s[0] == '<' {
        assert t[..4] == "&lt;" && t[1] == 'l';
      } else if s[0] == '>' {
        assert t[..4] == "&gt;" && t[1] == 'g';
      } else {
        assert t[0] == s[0] && t[1..] == rest;
      }
    }
  }

  // ---------------------------------------------------------------------
  // Entries and `dumpelement`

  /**
   * A field value of an entry: a text, or a nested dictionary. Non-string
   * values reach the writer as `str()` of themselves, that is as text.
   */
  datatype Node = Text(text: string) | Dict(fields: seq<Field>)
  /** One key of a dictionary with its value, in the dictionary's order. */
  datatype Field = Field(key: string, value: Node)

  function OpenTag(name: string): string { "<" + name + ">\n" }
  function CloseTag(name: string): string { "</" + name + ">\n" }
  function TextLine(key: string, text: string): string { "<" + key + ">" + Escape(text) + "</" + key + ">\n" }

  /**
   * `dumpelement(f, name, e)` as the successive strings passed to `f.write`.
   */
  function DumpElement(name: string, fields: seq<Field>): (out: seq<string>)
    ensures |out| >= 2 && out[0] == OpenTag(name) && out[|out| - 1] == CloseTag(name)
    decreases fields, 1
  {
    [OpenTag(name)] + DumpFields(fields) + [CloseTag(name)]
  }

  /** The loop over the keys of a dictionary. */
  function DumpFields(fields: seq<Field>): seq<string>
    decreases fields, 0
  {
    if fields == [] then []
    else
      var head := match fields[0].value
        case Dict(nested) => DumpElement(fields[0].key, nested)
        case Text(text) => [TextLine(fields[0].key, text)];
      head + DumpFields(fields[1..])
  }

  function Concat(chunks: seq<string>): string
  {
    if chunks == [] then "" else chunks[0] + Concat(chunks[1..])
  }

  /** The first line `writedump` writes. */
  const XmlDeclaration: string := "<?xml version=\"1.0\"?>\n"

  /** `writedump`: the contents of an entry file. */
  function WriteDump(event: seq<Field>): string
  {
    XmlDeclaration + Concat(DumpElement("event", event))
  }

  // ---------------------------------------------------------------------
  // Reading the written chunks back

  /** A tag name the writer can use unambiguously. */
  predicate IsName(name: string)
  {
    '<' !in name && '>' !in name && '\n' !in name && (name == [] || name[0] != '/')
  }

  predicate NamesOk(fields: seq<Field>)
  {
    forall i :: 0 <= i < |fields| ==>
      IsName(fields[i].key) && (fields[i].value.Dict? ==> NamesOk(fields[i].value.fields))
  }

  /** What one written string says. */
  datatype Chunk = Open(name: string) | Close(name: string) | Leaf(name: string, text: string) | Junk

  /** The index of the first `>` in `s`, or `|s|`. */
  function FindGt(s: string): (k: nat)
    ensures k <= |s|
    ensures forall i :: 0 <= i < k ==> s[i] != '>'
    ensures k < |s| ==> s[k] == '>'
  {
    if s == [] || s[0] == '>' then 0 else 1 + FindGt(s[1..])
  }

  function ReadChunk(c: string): Chunk
  {
    if IsCloseTag(c) then Close(c[2..|c| - 2])
    else if c == [] || c[0] != '<' then Junk
    else ReadTagged(c[1..])
  }

  predicate IsCloseTag(c: string)
  {
    |c| >= 4 && c[..2] == "</" && c[|c| - 2..] == ">\n"
  }

  /** A chunk after its `<`: an opening tag or a text line. */
  function ReadTagged(t: string): Chunk
  {
    var p := FindGt(t);
    if p >= |t| then Junk
    else if t[p + 1..] == "\n" then Open(t[..p])
    else ReadLeaf(t[..p], t[p + 1..])
  }

  /** The part of a text line after `<key>`: escaped text, then the closing tag. */
  function ReadLeaf(key: string, rest: string): Chunk
  {
    var tail := CloseTag(key);
    if |rest| >= |tail| && rest[|rest| - |tail|..] == tail then Leaf(key, Unescape(rest[..|rest| - |tail|]))
    else Junk
  }

  lemma ReadOpenTag(name: string)
    requires IsName(name)
    ensures ReadChunk(OpenTag(name)) == Open(name)
  {
    var t := name + ">" + "\n";
    assert OpenTag(name) == "<" + t;
    assert t[0] != '/' by {
      if name == [] { assert t[0] == '>'; } else { assert t[0] == name[0]; }
    }
    ReadChunkTagged(t);
    FindGtAfter(name, "\n");
    assert t[..|name|] == name;
    assert t[|name| + 1..] == "\n";
  }

  /** A tag whose name is not empty and does not start with `/` is no closing tag. */
  lemma NotCloseTag(t: string)
    requires t != [] && t[0] != '/'
    ensures !IsCloseTag("<" + t)
  {
    var c := "<" + t;
    assert c[1] == t[0];
    if |c| >= 4 { assert c[..2][1] == c[1]; }
  }

  lemma ReadChunkTagged(t: string)
    requires t != [] && t[0] != '/'
    ensures ReadChunk("<" + t) == ReadTagged(t)
  {
    var c := "<" + t;
    NotCloseTag(t);
    assert c[0] == '<' && c[1..] == t;
  }

  lemma ReadCloseTag(name: string)
    ensures ReadChunk(CloseTag(name)) == Close(name)
  {
    var c := CloseTag(name);
    assert c[..2] == "</" && c[|c| - 2..] == ">\n";
    assert c[2..|c| - 2] == name;
  }

  lemma ReadLeafOfText(key: string, text: string)
    ensures ReadLeaf(key, Escape(text) + CloseTag(key)) == Leaf(key, text)
  {
    var e := Escape(text);
    var tail := CloseTag(key);
    var rest := e + tail;
    assert rest[|rest| - |tail|..] == tail;
    assert rest[..|rest| - |tail|] == e;
    UnescapeEscape(text);
  }

  lemma ReadTaggedText(key: string, text: string)
    requires '>' !in key
    ensures ReadTagged(key + ">" + (Escape(text) + CloseTag(key))) == Leaf(key, text)
  {
    var rest := Escape(text) + CloseTag(key);
    var t := key + ">" + rest;
    FindGtAfter(key, rest);
    assert t[..|key|] == key;
    assert t[|key| + 1..] == rest;
    assert |rest| > 1;
    ReadLeafOfText(key, text);
  }

  lemma ReadTextLine(key: string, text: string)
    requires IsName(key)
    ensures ReadChunk(TextLine(key, text)) == Leaf(key, text)
  {
    var rest := Escape(text) + CloseTag(key);
    var t := key + ">" + rest;
    assert TextLine(key, text) == "<" + t;
    assert t[0] != '/' by {
      if key == [] { assert t[0] == '>'; } else { assert t[0] == key[0]; }
    }
    ReadChunkTagged(t);
    ReadTaggedText(key, text);
  }

  lemma {:induction false} FindGtAfter(name: string, rest: string)
    requires '>' !in name
    ensures FindGt(name + ">" + rest) == |name|
  {
    if name != [] {
      assert (name + ">" + rest)[1..] == name[1..] + ">" + rest;
      FindGtAfter(name[1..], rest);
    }
  }

  /** The meaning of every written string, in order. */
  function ReadChunks(cs: seq<string>): (ks: seq<Chunk>)
    ensures |ks| == |cs|
  {
    if cs == [] then [] else [ReadChunk(cs[0])] + ReadChunks(cs[1..])
  }

  lemma {:induction false} ReadChunksAppend(a: seq<string>, b: seq<string>)
    ensures ReadChunks(a + b) == ReadChunks(a) + ReadChunks(b)
  {
    if a == [] {
      assert a + b == b;
    } else {
      assert (a + b)[0] == a[0];
      assert (a + b)[1..] == a[1..] + b;
      ReadChunksAppend(a[1..], b);
      assert ReadChunks(a + b) == [ReadChunk(a[0])] + (ReadChunks(a[1..]) + ReadChunks(b));
    }
  }

  /** What the strings written for an element say, chunk by chunk. */
  function Tokens(name: string, fields: seq<Field>): seq<Chunk>
    decreases fields, 1
  {
    [Open(name)] + FieldTokens(fields) + [Close(name)]
  }

  function FieldTokens(fields: seq<Field>): seq<Chunk>
    decreases fields, 0
  {
    if fields == [] then []
    else
      var head := match fields[0].value
        case Dict(nested) => Tokens(fields[0].key, nested)
        case Text(text) => [Leaf(fields[0].key, text)];
      head + FieldTokens(fields[1..])
  }

  lemma NamesOkTail(fields: seq<Field>)
    requires fields != [] && NamesOk(fields)
    ensures IsName(fields[0].key) && NamesOk(fields[1..])
    ensures fields[0].value.Dict? ==> NamesOk(fields[0].value.fields)
  {
    forall i | 0 <= i < |fields[1..]|
      ensures IsName(fields[1..][i].key) && (fields[1..][i].value.Dict? ==> NamesOk(fields[1..][i].value.fields))
    {
      assert fields[1..][i] == fields[i + 1];
    }
  }

  /** Each string `dumpelement` writes reads as the tag or text it was written for. */
  lemma {:induction false} ReadDumpElement(name: string, fields: seq<Field>)
    requires IsName(name) && NamesOk(fields)
    ensures ReadChunks(DumpElement(name, fields)) == Tokens(name, fields)
    decreases fields, 1
  {
    ReadOpenTag(name);
    ReadCloseTag(name);
    ReadChunksAppend([OpenTag(name)] + DumpFields(fields), [CloseTag(name)]);
    ReadChunksAppend([OpenTag(name)], DumpFields(fields));
    ReadDumpFields(fields);
  }

  lemma {:induction false} ReadDumpFields(fields: seq<Field>)
    requires NamesOk(fields)
    ensures ReadChunks(DumpFields(fields)) == FieldTokens(fields)
    decreases fields, 0
  {
    if fields != [] {
      NamesOkTail(fields);
      var later := DumpFields(fields[1..]);
      ReadDumpFields(fields[1..]);
      match fields[0].value {
        case Text(text) =>
          ReadTextLine(fields[0].key, text);
          ReadChunksAppend([TextLine(fields[0].key, text)], later);
        case Dict(nested) =>
          ReadDumpElement(fields[0].key, nested);
          ReadChunksAppend(DumpElement(fields[0].key, nested), later);
      }
    }
  }

  /**
   * Reads one element from the chunks: its name, its fields and how many
   * chunks it took.
   */
  function ParseElement(ks: seq<Chunk>): (r: Option<(string, seq<Field>, nat)>)
    ensures r.Some? ==> 2 <= r.value.2 <= |ks|
    decreases |ks|, 0
  {
    if ks == [] || !ks[0].Open? then None
    else
      match ParseFields(ks[1..])
      case None => None
      case Some((fields, n)) =>
        if ks[1 + n] == Close(ks[0].name) then Some((ks[0].name, fields, n + 2)) else None
  }

  /** Reads fields up to, and not including, the next closing tag. */
  function ParseFields(ks: seq<Chunk>): (r: Option<(seq<Field>, nat)>)
    ensures r.Some? ==> r.value.1 < |ks| && ks[r.value.1].Close?
    decreases |ks|, 1
  {
    if ks == [] then None
    else
      match ks[0]
      case Close(_) => Some(([], 0))
      case Junk => None
      case Leaf(key, text) =>
        (match ParseFields(ks[1..])
         case None => None
         case Some((fields, n)) => Some(([Field(key, Text(text))] + fields, n + 1)))
      case Open(key) =>
        match ParseElement(ks)
        case None => None
        case Some((_, nested, m)) =>
          match ParseFields(ks[m..])
          case None => None
          case Some((fields, n)) => Some(([Field(key, Dict(nested))] + fields, m + n))
  }

  lemma {:induction false} ParseTokens(name: string, fields: seq<Field>, rest: seq<Chunk>)
    ensures ParseElement(Tokens(name, fields) + rest) == Some((name, fields, |Tokens(name, fields)|))
    decreases fields, 2
  {
    var body := FieldTokens(fields);
    var ks := Tokens(name, fields) + rest;
    assert ks == [Open(name)] + (body + ([Close(name)] + rest));
    assert ks[1..] == body + ([Close(name)] + rest);
    ParseFieldTokens(fields, name, rest);
    assert ks[1 + |body|] == Close(name);
  }

  lemma ParseFieldsLeaf(key: string, text: string, ks: seq<Chunk>, fields: seq<Field>, n: nat)
    requires ParseFields(ks) == Some((fields, n))
    ensures ParseFields([Leaf(key, text)] + ks) == Some(([Field(key, Text(text))] + fields, n + 1))
  {
    assert ([Leaf(key, text)] + ks)[1..] == ks;
  }

  lemma ParseFieldsNested(key: string, nested: seq<Field>, tail: seq<Chunk>, fields: seq<Field>, n: nat)
    requires ParseFields(tail) == Some((fields, n))
    decreases nested, 3
    ensures ParseFields(Tokens(key, nested) + tail)
            == Some(([Field(key, Dict(nested))] + fields, |Tokens(key, nested)| + n))
  {
    var head := Tokens(key, nested);
    var ks := head + tail;
    ParseTokens(key, nested, tail);
    assert ks[0] == Open(key);
    assert ks[|head|..] == tail;
  }

  lemma {:induction false} ParseFieldTokens(fields: seq<Field>, closing: string, rest: seq<Chunk>)
    ensures ParseFields(FieldTokens(fields) + ([Close(closing)] + rest)) == Some((fields, |FieldTokens(fields)|))
    decreases fields, 1
  {
    if fields != [] {
      var after := [Close(closing)] + rest;
      ParseFieldTokens(fields[1..], closing, rest);
      match fields[0].value {
        case Text(text) =>
          FieldTokensText(fields, text, after);
        case Dict(nested) =>
          FieldTokensDict(fields, nested, after);
      }
    }
  }

  /** One step of `ParseFieldTokens` for a field holding text. */
  lemma FieldTokensText(fields: seq<Field>, text: string, after: seq<Chunk>)
    requires fields != [] && fields[0].value == Text(text)
    requires ParseFields(FieldTokens(fields[1..]) + after) == Some((fields[1..], |FieldTokens(fields[1..])|))
    ensures ParseFields(FieldTokens(fields) + after) == Some((fields, |FieldTokens(fields)|))
  {
    var later := FieldTokens(fields[1..]);
    assert FieldTokens(fields) + after == [Leaf(fields[0].key, text)] + (later + after);
    ParseFieldsLeaf(fields[0].key, text, later + after, fields[1..], |later|);
    assert [fields[0]] + fields[1..] == fields;
  }

  /** One step of `ParseFieldTokens` for a field holding a nested element. */
  lemma FieldTokensDict(fields: seq<Field>, nested: seq<Field>, after: seq<Chunk>)
    requires fields != [] && fields[0].value == Dict(nested)
    requires ParseFields(FieldTokens(fields[1..]) + after) == Some((fields[1..], |FieldTokens(fields[1..])|))
    ensures ParseFields(FieldTokens(fields) + after) == Some((fields, |FieldTokens(fields)|))
    decreases fields, 0
  {
    var later := FieldTokens(fields[1..]);
    assert FieldTokens(fields) + after == Tokens(fields[0].key, nested) + (later + after);
    ParseFieldsNested(fields[0].key, nested, later + after, fields[1..], |later|);
    assert [fields[0]] + fields[1..] == fields;
  }

  /**
   * The strings `dumpelement` writes for an entry determine it: read back,
   * they give the element's name and every key and text, in order.
   */
  lemma ParseDumpElement(name: string, fields: seq<Field>)
    requires IsName(name) && NamesOk(fields)
    ensures ParseElement(ReadChunks(DumpElement(name, fields))) == Some((name, fields, |DumpElement(name, fields)|))
  {
    ReadDumpElement(name, fields);
    ParseTokens(name, fields, []);
    assert Tokens(name, fields) + [] == Tokens(name, fields);
  }

  /**
   * An entry file is the XML declaration followed by strings that read back
   * as the element `event` with every field of the event, in order.
   */
  lemma WriteDumpReadsBack(event: seq<Field>)
    requires NamesOk(event)
    ensures exists chunks :: WriteDump(event) == XmlDeclaration + Concat(chunks)
                             && ParseElement(ReadChunks(chunks)) == Some(("event", event, |chunks|))
  {
    var chunks := DumpElement("event", event);
    assert IsName("event");
    ParseDumpElement("event", event);
    assert WriteDump(event) == XmlDeclaration + Concat(chunks);
  }

  // ---------------------------------------------------------------------
  // `gettext`

  /** An element found by `getElementsByTagName`, with the text of its first child, if any. */
  datatype Element = Element(firstText: Option<string>)

  /**
   * `gettext(e)`: "" for no element, else the first element's first child's
   * text. An element with no child fails (`firstChild` is None): `None`.
   */
  function GetText(es: seq<Element>): (r: Option<string>)
    ensures es == [] ==> r == Some("")
    ensures es != [] ==> (r.Some? <==> es[0].firstText.Some?)
    ensures es != [] && r.Some? ==> r.value == es[0].firstText.value
  {
    if es == [] then Some("") else es[0].firstText
  }
}
