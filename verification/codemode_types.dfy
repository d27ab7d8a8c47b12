/** The TypeScript types Code Mode shows for tool results (internal/mcp/codemode_schema.go): what such a text means, and
  that rendering a schema keeps the meaning of the schema. Types are read from the text itself. */
module CodeModeTypes {
  import opened Common
  import opened JsonValues
  import opened CodeModeSchema
  import Text

  datatype Type =
    | Any
    | Textual
    | Numeric
    | Boolean
    | Anys
    | ArrayOf(item: Type)
    | Dictionary
    | Struct(fields: seq<Field>)

  datatype Field = Field(name: string, typ: Type)

  /** The values of a type. Null stands where a string may: inference takes it for one. */
  predicate Admits(t: Type, v: Json)
    decreases t
  {
    match t
    case Any => true
    case Textual => v.Str? || v.Null?
    case Numeric => v.Num?
    case Boolean => v.Bool?
    case Anys => v.Arr?
    case ArrayOf(item) => v.Arr? && forall i :: 0 <= i < |v.items| ==> Admits(item, v.items[i])
    case Dictionary => v.Obj?
    case Struct(fields) =>
      v.Obj? && forall i :: 0 <= i < |fields| ==>
        fields[i].name in v.fields && Admits(fields[i].typ, v.fields[fields[i].name])
  }

  // ---------------------------------------------------------------------------------------------------
  // Writing and reading types
  // ---------------------------------------------------------------------------------------------------

  predicate WellFormed(t: Type)
    decreases t
  {
    match t
    case ArrayOf(item) => WellFormed(item)
    case Struct(fields) =>
      fields != [] && forall i :: 0 <= i < |fields| ==> Name(fields[i].name) && WellFormed(fields[i].typ)
    case _ => true
  }

  function Written(t: Type): string
    decreases t, 0
  {
    match t
    case Any => "any"
    case Textual => "string"
    case Numeric => "number"
    case Boolean => "boolean"
    case Anys => "any[]"
    case ArrayOf(item) => "Array<" + (Written(item) + ">")
    case Dictionary => "Record<string, any>"
    case Struct(fields) => "{ " + (WrittenFields(fields) + " }")
  }

  function WrittenFields(fields: seq<Field>): string
    decreases fields, 1
  {
    if fields == [] then ""
    else
      var f := fields[0];
      f.name + (": " + (Written(f.typ) + if |fields| == 1 then "" else "; " + WrittenFields(fields[1..])))
  }

  predicate Starts(s: string, prefix: string) {
    |s| >= |prefix| && s[..|prefix|] == prefix
  }

  predicate IdentifierChar(c: char) {
    c == '_' || 'a' <= c <= 'z' || 'A' <= c <= 'Z' || '0' <= c <= '9'
  }

  /** A name: letters, digits and underscores, no digit first. */
  predicate Name(s: string) {
    s != [] && !('0' <= s[0] <= '9') && forall i :: 0 <= i < |s| ==> IdentifierChar(s[i])
  }

  /** These are the keys the renderer keeps. */
  lemma NamesAreKept(props: map<string, Json>)
    ensures forall key :: key in Identifiers(props) <==> key in props && Name(key)
  {
    forall key: string
      ensures IsIdentifier(key) <==> Name(key)
    {
    }
  }

  function NameLength(s: string): (n: nat)
    ensures n <= |s|
  {
    if s == "" || !IdentifierChar(s[0]) then 0 else 1 + NameLength(s[1..])
  }

  /** Something read from the front of a text, and the rest. */
  datatype Read<T> = Read(value: T, rest: string)

  function CloseArray(item: Option<Read<Type>>): (r: Option<Read<Type>>)
    ensures r.Some? ==> item.Some? && |r.value.rest| < |item.value.rest|
  {
    if item.Some? && Starts(item.value.rest, ">") then Some(Read(ArrayOf(item.value.value), item.value.rest[1..]))
    else None
  }

  function ReadType(s: string): (r: Option<Read<Type>>)
    ensures r.Some? ==> |r.value.rest| < |s|
    decreases |s|, 1
  {
    if Starts(s, "any[]") then Some(Read(Anys, s[5..]))
    else if Starts(s, "any") then Some(Read(Any, s[3..]))
    else if Starts(s, "string") then Some(Read(Textual, s[6..]))
    else if Starts(s, "number") then Some(Read(Numeric, s[6..]))
    else if Starts(s, "boolean") then Some(Read(Boolean, s[7..]))
    else if Starts(s, "Record<string, any>") then Some(Read(Dictionary, s[19..]))
    else if Starts(s, "Array<") then CloseArray(ReadType(s[6..]))
    else if Starts(s, "{ ") then
      match ReadFields(s[2..])
      case None => None
      case Some(r) => Some(Read(Struct(r.value), r.rest))
    else None
  }

  function ReadFields(s: string): (r: Option<Read<seq<Field>>>)
    ensures r.Some? ==> |r.value.rest| < |s|
    decreases |s|, 0
  {
    var n := NameLength(s);
    if !Name(s[..n]) || !Starts(s[n..], ": ") then None
    else
      match ReadType(s[n + 2..])
      case None => None
      case Some(t) =>
        if Starts(t.rest, " }") then Some(Read([Field(s[..n], t.value)], t.rest[2..]))
        else if !Starts(t.rest, "; ") then None
        else
          match ReadFields(t.rest[2..])
          case None => None
          case Some(more) => Some(Read([Field(s[..n], t.value)] + more.value, more.rest))
  }

  lemma StartsWith(prefix: string, rest: string)
    ensures Starts(prefix + rest, prefix) && (prefix + rest)[|prefix|..] == rest
  {
  }

  lemma {:induction false} NameRead(name: string, rest: string)
    requires forall i :: 0 <= i < |name| ==> IdentifierChar(name[i])
    requires rest != "" && !IdentifierChar(rest[0])
    ensures NameLength(name + rest) == |name|
  {
    if name == "" {
      assert name + rest == rest;
    } else {
      assert (name + rest)[1..] == name[1..] + rest;
      NameRead(name[1..], rest);
    }
  }

  lemma FirstCharacter(s: string, prefix: string)
    requires Starts(s, prefix) && prefix != ""
    ensures s != "" && s[0] == prefix[0]
  {
  }

  /** A keyword starts with itself and with no other, but for "any[]", which starts with "any". */
  lemma KeywordStarts(t: Type, rest: string, prefix: string)
    requires !t.ArrayOf? && !t.Struct? && (rest == "" || rest[0] != '[')
    requires prefix == "any[]" || prefix == "any" || prefix == "string" || prefix == "number" || prefix == "boolean" ||
             prefix == "Record<string, any>" || prefix == "Array<" || prefix == "{ "
    ensures Starts(Written(t) + rest, prefix) <==> prefix == Written(t) || (t.Anys? && prefix == "any")
  {
    var s := Written(t) + rest;
    StartsWith(Written(t), rest);
    if Starts(s, prefix) {
      FirstCharacter(s, prefix);
      assert prefix == "any[]" ==> s[3] == '[';
      assert t.Any? && rest != "" ==> s[3] == rest[0];
    }
  }

  lemma ReadsKeyword(t: Type, rest: string)
    requires !t.ArrayOf? && !t.Struct? && (rest == "" || rest[0] != '[')
    ensures ReadType(Written(t) + rest) == Some(Read(t, rest))
  {
    hide Starts, ReadFields, CloseArray;
    KeywordStarts(t, rest, "any[]");
    KeywordStarts(t, rest, "any");
    KeywordStarts(t, rest, "string");
    KeywordStarts(t, rest, "number");
    KeywordStarts(t, rest, "boolean");
    KeywordStarts(t, rest, "Record<string, any>");
    StartsWith(Written(t), rest);
  }

  lemma ReadsArray(s: string)
    ensures ReadType("Array<" + s) == CloseArray(ReadType(s))
  {
    hide CloseArray;
    var v := "Array<" + s;
    StartsWith("Array<", s);
    assert v[0] == 'A' && v[6..] == s;
  }

  lemma ReadsStruct(s: string)
    ensures ReadType("{ " + s) ==
      if ReadFields(s).Some? then Some(Read(Struct(ReadFields(s).value.value), ReadFields(s).value.rest)) else None
  {
    hide ReadFields;
    StartsWith("{ ", s);
    assert ("{ " + s)[0] == '{';
  }

  /** Reading is the inverse of writing. */
  lemma {:induction false} ReadsWritten(t: Type, rest: string)
    requires WellFormed(t) && (rest == "" || rest[0] != '[')
    ensures ReadType(Written(t) + rest) == Some(Read(t, rest))
    decreases t, 0
  {
    hide ReadType;
    match t
    case ArrayOf(item) =>
      assert Written(t) + rest == "Array<" + (Written(item) + (">" + rest));
      ReadsWritten(item, ">" + rest);
      ReadsArray(Written(item) + (">" + rest));
      StartsWith(">", rest);
    case Struct(fields) =>
      assert Written(t) + rest == "{ " + (WrittenFields(fields) + (" }" + rest));
      ReadsWrittenFields(fields, rest);
      ReadsStruct(WrittenFields(fields) + (" }" + rest));
    case _ => ReadsKeyword(t, rest);
  }

  /** What comes after the first field of a list. */
  function AfterField(f: Field, tail: string): Option<Read<seq<Field>>> {
    if Starts(tail, " }") then Some(Read([f], tail[2..]))
    else if !Starts(tail, "; ") then None
    else
      match ReadFields(tail[2..])
      case None => None
      case Some(more) => Some(Read([f] + more.value, more.rest))
  }

  lemma ReadsField(f: Field, tail: string)
    requires Name(f.name) && ReadType(Written(f.typ) + tail) == Some(Read(f.typ, tail))
    ensures ReadFields(f.name + (": " + (Written(f.typ) + tail))) == AfterField(f, tail)
  {
    hide ReadType, Written;
    NameRead(f.name, ": " + (Written(f.typ) + tail));
    StartsWith(f.name, ": " + (Written(f.typ) + tail));
    StartsWith(": ", Written(f.typ) + tail);
    var s := f.name + (": " + (Written(f.typ) + tail));
    assert s[..|f.name|] == f.name && s[|f.name| + 2..] == Written(f.typ) + tail;
  }

  lemma Append(a: string, b: string, c: string, d: string, e: string)
    ensures (a + (b + (c + d))) + e == a + (b + (c + (d + e)))
  {
  }

  lemma Together(a: string, b: string, c: string)
    ensures (a + b) + c == a + (b + c)
  {
  }

  /** A list of fields, before something else, is its first field before the others and that. */
  lemma WrittenBefore(fields: seq<Field>, rest: string)
    requires fields != []
    ensures WrittenFields(fields) + rest == fields[0].name + (": " + (Written(fields[0].typ) +
      if |fields| == 1 then rest else "; " + (WrittenFields(fields[1..]) + rest)))
  {
    hide Written;
    var others := if |fields| == 1 then "" else "; " + WrittenFields(fields[1..]);
    Append(fields[0].name, ": ", Written(fields[0].typ), others, rest);
    Together("; ", WrittenFields(fields[1..]), rest);
    assert "" + rest == rest;
  }

  lemma {:induction false} ReadsWrittenFields(fields: seq<Field>, rest: string)
    requires fields != []
    requires forall i :: 0 <= i < |fields| ==> Name(fields[i].name) && WellFormed(fields[i].typ)
    ensures ReadFields(WrittenFields(fields) + (" }" + rest)) == Some(Read(fields, rest))
    decreases fields, 1
  {
    hide ReadType, ReadFields, Written, WrittenFields, Name, WellFormed, Starts;
    var f := fields[0];
    var close := " }" + rest;
    var tail := if |fields| == 1 then close else "; " + (WrittenFields(fields[1..]) + close);
    WrittenBefore(fields, close);
    ReadsWritten(f.typ, tail);
    ReadsField(f, tail);
    if |fields| == 1 {
      StartsWith(" }", rest);
      assert fields == [f];
    } else {
      var others := WrittenFields(fields[1..]) + close;
      StartsWith("; ", others);
      NotClosed(others);
      ReadsWrittenFields(fields[1..], rest);
      assert fields == [f] + fields[1..];
    }
  }

  lemma NotClosed(others: string)
    ensures !Starts("; " + others, " }")
  {
    assert ("; " + others)[0] == ';';
  }

  lemma WritesKeyword(s: string)
    requires ReadType(s).Some? && !Starts(s, "Array<") && !Starts(s, "{ ")
    ensures var r := ReadType(s).value;
      !r.value.ArrayOf? && !r.value.Struct? && s == Written(r.value) + r.rest
  {
  }

  /** Only what is written so is read. */
  lemma {:induction false} WritesRead(s: string)
    requires ReadType(s).Some?
    ensures WellFormed(ReadType(s).value.value)
    ensures s == Written(ReadType(s).value.value) + ReadType(s).value.rest
    decreases |s|, 1
  {
    hide ReadType, ReadFields;
    if Starts(s, "Array<") {
      assert s == "Array<" + s[6..];
      ReadsArray(s[6..]);
      WritesRead(s[6..]);
    } else if Starts(s, "{ ") {
      assert s == "{ " + s[2..];
      ReadsStruct(s[2..]);
      WritesReadFields(s[2..]);
    } else {
      WritesKeyword(s);
    }
  }

  lemma TakesField(s: string) returns (name: string, text: string)
    requires ReadFields(s).Some?
    ensures Name(name) && s == name + (": " + text) && |text| < |s| && ReadType(text).Some?
    ensures ReadFields(s) == AfterField(Field(name, ReadType(text).value.value), ReadType(text).value.rest)
  {
    hide ReadType;
    var n := NameLength(s);
    name, text := s[..n], s[n + 2..];
    assert s[n..] == ": " + text;
  }

  lemma {:induction false} WritesReadFields(s: string)
    requires ReadFields(s).Some?
    ensures WellFormed(Struct(ReadFields(s).value.value))
    ensures s == WrittenFields(ReadFields(s).value.value) + (" }" + ReadFields(s).value.rest)
    decreases |s|, 0
  {
    hide ReadType, ReadFields, Written, WrittenFields, WellFormed, Name;
    var name, text := TakesField(s);
    WritesRead(text);
    var f, tail := Field(name, ReadType(text).value.value), ReadType(text).value.rest;
    if Starts(tail, " }") {
      AssembleLast(f, tail);
    } else {
      WritesReadFields(tail[2..]);
      AssembleMore(f, tail);
    }
  }

  lemma AssembleLast(f: Field, tail: string)
    requires Starts(tail, " }") && Name(f.name) && WellFormed(f.typ)
    ensures WellFormed(Struct([f]))
    ensures f.name + (": " + (Written(f.typ) + tail)) == WrittenFields([f]) + (" }" + tail[2..])
  {
    hide Written, WrittenFields;
    assert tail == " }" + tail[2..];
    WrittenBefore([f], tail);
  }

  lemma AssembleMore(f: Field, tail: string)
    requires Starts(tail, "; ") && Name(f.name) && WellFormed(f.typ) && ReadFields(tail[2..]).Some?
    requires WellFormed(Struct(ReadFields(tail[2..]).value.value))
    requires tail[2..] == WrittenFields(ReadFields(tail[2..]).value.value) + (" }" + ReadFields(tail[2..]).value.rest)
    ensures WellFormed(Struct(AfterField(f, tail).value.value))
    ensures f.name + (": " + (Written(f.typ) + tail)) ==
      WrittenFields(AfterField(f, tail).value.value) + (" }" + AfterField(f, tail).value.rest)
  {
    hide Written, ReadFields, WrittenFields, Name;
    var more := ReadFields(tail[2..]).value;
    assert ([f] + more.value)[1..] == more.value;
    assert tail == "; " + tail[2..] && tail[0] == ';';
    WrittenBefore([f] + more.value, " }" + more.rest);
  }

  /** The values a text admits as a type. */
  predicate TextAdmits(text: string, v: Json) {
    var r := ReadType(text);
    r.Some? && r.value.rest == "" && Admits(r.value.value, v)
  }

  lemma TextMeansType(t: Type)
    requires WellFormed(t)
    ensures forall v :: TextAdmits(Written(t), v) <==> Admits(t, v)
  {
    ReadsWritten(t, "");
    assert Written(t) + "" == Written(t);
  }

  /** A string, a number or a boolean is admitted by its own keyword or by "any", and by no other text. */
  lemma ScalarsNeedTheirKeyword(text: string, v: Json)
    ensures v.Str? ==> (TextAdmits(text, v) <==> text == "string" || text == "any")
    ensures v.Num? ==> (TextAdmits(text, v) <==> text == "number" || text == "any")
    ensures v.Bool? ==> (TextAdmits(text, v) <==> text == "boolean" || text == "any")
  {
    hide ReadType;
    if TextAdmits(text, v) {
      WritesRead(text);
      var t := ReadType(text).value.value;
      assert text == Written(t) + "" == Written(t);
    }
    assert Written(Any) == "any" && Written(Textual) == "string";
    assert Written(Numeric) == "number" && Written(Boolean) == "boolean";
    TextMeansType(Any);
    TextMeansType(Textual);
    TextMeansType(Numeric);
    TextMeansType(Boolean);
  }

  // ---------------------------------------------------------------------------------------------------
  // What a rendering means
  // ---------------------------------------------------------------------------------------------------

  /** The values of a schema: every element of an array has the type of its items, every property listed is there. A
      schema of no known type has them all. */
  ghost predicate Conforms(s: Object, v: Json)
    decreases s
  {
    if TypeOf(s) == "string" then v.Str? || v.Null?
    else if TypeOf(s) == "number" then v.Num?
    else if TypeOf(s) == "boolean" then v.Bool?
    else if TypeOf(s) == "array" then
      v.Arr? && ("items" in s.fields && s.fields["items"].Obj? ==>
        forall i :: 0 <= i < |v.items| ==> Conforms(s.fields["items"], v.items[i]))
    else if TypeOf(s) == "object" then
      v.Obj? && forall key :: key in Properties(s) ==>
        key in v.fields && (Properties(s)[key].Obj? ==> Conforms(Properties(s)[key], v.fields[key]))
    else true
  }

  /** A property whose type is written out: an object of its own, not too long as a text. */
  ghost predicate Spelled(propSchema: Json, depth: nat, cap: Option<nat>) {
    propSchema.Obj? && |Render(propSchema, depth, cap)| <= MAX_PROP_TYPE_LEN
  }

  /** The values of a schema as far as its rendering goes: below the cap, without the properties whose names are no
      identifiers, and with nothing said of a property whose type is not written out. */
  ghost predicate Promises(s: Object, depth: nat, cap: Option<nat>, v: Json)
    decreases s
  {
    if cap.Some? && depth > cap.value then true
    else if TypeOf(s) == "string" then v.Str? || v.Null?
    else if TypeOf(s) == "number" then v.Num?
    else if TypeOf(s) == "boolean" then v.Bool?
    else if TypeOf(s) == "array" then
      v.Arr? && ("items" in s.fields && s.fields["items"].Obj? ==>
        forall i :: 0 <= i < |v.items| ==> Promises(s.fields["items"], depth + 1, cap, v.items[i]))
    else if TypeOf(s) == "object" then
      v.Obj? && forall key :: key in Properties(s) && Name(key) ==>
        key in v.fields && PropertyPromises(s, key, depth, cap, v.fields[key])
    else true
  }

  ghost predicate PropertyPromises(s: Object, key: string, depth: nat, cap: Option<nat>, v: Json)
    requires key in Properties(s)
    decreases s, 0
  {
    Spelled(Properties(s)[key], depth + 1, cap) ==> Promises(Properties(s)[key], depth + 1, cap, v)
  }

  /** The type a schema is rendered as. */
  ghost predicate Means(t: Type, s: Object, depth: nat, cap: Option<nat>) {
    && WellFormed(t) && Written(t) == Render(s, depth, cap)
    && (forall v :: Admits(t, v) <==> Promises(s, depth, cap, v))
    && (t.Struct? ==> InOrder(t.fields))
  }

  /** The fields of a struct come in the order of their names, none longer than the limit. */
  predicate InOrder(fields: seq<Field>) {
    && (forall i, j :: 0 <= i < j < |fields| ==> Text.Less(fields[i].name, fields[j].name))
    && forall i :: 0 <= i < |fields| ==> |Written(fields[i].typ)| <= MAX_PROP_TYPE_LEN
  }

  ghost predicate FieldMeans(f: Field, s: Object, key: string, depth: nat, cap: Option<nat>)
    requires key in Properties(s)
  {
    && f.name == key && WellFormed(f.typ) && |Written(f.typ)| <= MAX_PROP_TYPE_LEN
    && forall v :: Admits(f.typ, v) <==> PropertyPromises(s, key, depth, cap, v)
  }

  /** Every rendering is a type, of just the values the schema promises there. */
  lemma {:induction false} RenderingMeans(s: Object, depth: nat, cap: Option<nat>) returns (t: Type)
    ensures Means(t, s, depth, cap)
    decreases s, 2
  {
    hide Means, Render, Promises;
    if (cap.None? || depth <= cap.value) && TypeOf(s) == "array" && "items" in s.fields && s.fields["items"].Obj? {
      var item := RenderingMeans(s.fields["items"], depth + 1, cap);
      ArrayMeans(s, depth, cap, item);
      t := ArrayOf(item);
    } else if (cap.None? || depth <= cap.value) && TypeOf(s) == "object" {
      t := StructMeans(s, depth, cap);
    } else {
      t := KeywordMeans(s, depth, cap);
    }
  }

  lemma KeywordMeans(s: Object, depth: nat, cap: Option<nat>) returns (t: Type)
    requires cap.None? || depth <= cap.value ==>
      TypeOf(s) != "object" && (TypeOf(s) == "array" ==> !("items" in s.fields && s.fields["items"].Obj?))
    ensures Means(t, s, depth, cap)
  {
    t := if cap.Some? && depth > cap.value then Any
         else if TypeOf(s) == "string" then Textual
         else if TypeOf(s) == "number" then Numeric
         else if TypeOf(s) == "boolean" then Boolean
         else if TypeOf(s) == "array" then Anys
         else Any;
  }

  lemma ArrayMeans(s: Object, depth: nat, cap: Option<nat>, item: Type)
    requires (cap.None? || depth <= cap.value) && TypeOf(s) == "array" && "items" in s.fields && s.fields["items"].Obj?
    requires Means(item, s.fields["items"], depth + 1, cap)
    ensures Means(ArrayOf(item), s, depth, cap)
  {
    var items := s.fields["items"];
    ArrayText(s, depth, cap, item);
    forall v
      ensures Admits(ArrayOf(item), v) <==> Promises(s, depth, cap, v)
    {
      hide Render, Written;
    }
  }

  lemma ArrayText(s: Object, depth: nat, cap: Option<nat>, item: Type)
    requires (cap.None? || depth <= cap.value) && TypeOf(s) == "array" && "items" in s.fields && s.fields["items"].Obj?
    requires Written(item) == Render(s.fields["items"], depth + 1, cap)
    ensures Written(ArrayOf(item)) == Render(s, depth, cap)
  {
    var inner := Render(s.fields["items"], depth + 1, cap);
    assert "Array<" + (inner + ">") == "Array<" + inner + ">";
  }

  lemma {:induction false} StructMeans(s: Object, depth: nat, cap: Option<nat>) returns (t: Type)
    requires TypeOf(s) == "object" && (cap.None? || depth <= cap.value)
    ensures Means(t, s, depth, cap)
    decreases s, 1
  {
    hide Name, Text.Sorted, Text.Less, Render, Promises, RenderProperties;
    var keys := Text.Sorted(Identifiers(Properties(s)));
    if keys == [] {
      t := Dictionary;
      NothingToSpell(s, depth, cap);
    } else {
      assert forall i :: 0 <= i < |keys| ==> keys[i] in keys;
      var fields := FieldsMean(s, keys, depth, cap);
      t := Struct(fields);
      StructText(s, depth, cap, fields);
      forall v
        ensures Admits(t, v) <==> Promises(s, depth, cap, v)
      {
        StructValues(s, depth, cap, keys, fields, v);
      }
      FieldsInOrder(s, depth, cap, keys, fields);
    }
  }

  lemma FieldsInOrder(s: Object, depth: nat, cap: Option<nat>, keys: seq<string>, fields: seq<Field>)
    requires keys == Text.Sorted(Identifiers(Properties(s))) && keys != [] && |fields| == |keys|
    requires forall i :: 0 <= i < |keys| ==> keys[i] in Properties(s) && FieldMeans(fields[i], s, keys[i], depth, cap)
    ensures WellFormed(Struct(fields)) && InOrder(fields)
  {
    hide Render, Written, Name, PropertyPromises, Text.Sorted, Text.Less;
    KeysInOrder(s, keys);
    NamesAreKept(Properties(s));
    forall i | 0 <= i < |fields|
      ensures Name(fields[i].name) && WellFormed(fields[i].typ)
    {
      assert FieldMeans(fields[i], s, keys[i], depth, cap) && keys[i] in keys;
    }
  }

  lemma NothingToSpell(s: Object, depth: nat, cap: Option<nat>)
    requires TypeOf(s) == "object" && (cap.None? || depth <= cap.value) && Text.Sorted(Identifiers(Properties(s))) == []
    ensures Means(Dictionary, s, depth, cap)
  {
    hide Name, Text.Sorted;
    NamesAreKept(Properties(s));
  }

  lemma KeysInOrder(s: Object, keys: seq<string>)
    requires keys == Text.Sorted(Identifiers(Properties(s)))
    ensures forall i, j :: 0 <= i < j < |keys| ==> Text.Less(keys[i], keys[j])
  {
    forall i, j | 0 <= i < j < |keys|
      ensures Text.Less(keys[i], keys[j])
    {
      Text.SortedIncreases(Identifiers(Properties(s)), i, j);
    }
  }

  lemma StructText(s: Object, depth: nat, cap: Option<nat>, fields: seq<Field>)
    requires TypeOf(s) == "object" && (cap.None? || depth <= cap.value) && fields != []
    requires Text.Sorted(Identifiers(Properties(s))) != []
    requires WrittenFields(fields) == RenderProperties(s, Text.Sorted(Identifiers(Properties(s))), depth, cap)
    ensures Written(Struct(fields)) == Render(s, depth, cap)
  {
    hide RenderProperties, WrittenFields, Name, Text.Sorted;
    var inner := WrittenFields(fields);
    assert "{ " + (inner + " }") == "{ " + inner + " }";
  }

  lemma StructValues(s: Object, depth: nat, cap: Option<nat>, keys: seq<string>, fields: seq<Field>, v: Json)
    requires TypeOf(s) == "object" && (cap.None? || depth <= cap.value) && |fields| == |keys|
    requires forall key :: key in keys <==> key in Identifiers(Properties(s))
    requires forall i :: 0 <= i < |keys| ==> keys[i] in Properties(s) && FieldMeans(fields[i], s, keys[i], depth, cap)
    ensures Admits(Struct(fields), v) <==> Promises(s, depth, cap, v)
  {
    hide Render, Written, Name, PropertyPromises, WellFormed;
    NamesAreKept(Properties(s));
    if v.Obj? {
      if Admits(Struct(fields), v) {
        forall key | key in Properties(s) && Name(key)
          ensures key in v.fields && PropertyPromises(s, key, depth, cap, v.fields[key])
        {
          assert key in keys;
          var i :| 0 <= i < |keys| && keys[i] == key;
          assert FieldMeans(fields[i], s, keys[i], depth, cap);
        }
      }
      if Promises(s, depth, cap, v) {
        forall i | 0 <= i < |fields|
          ensures fields[i].name in v.fields && Admits(fields[i].typ, v.fields[fields[i].name])
        {
          assert FieldMeans(fields[i], s, keys[i], depth, cap) && keys[i] in keys;
        }
      }
    }
  }

  lemma {:induction false} FieldMeaning(s: Object, key: string, depth: nat, cap: Option<nat>) returns (f: Field)
    requires key in Properties(s)
    ensures FieldMeans(f, s, key, depth, cap) && Written(f.typ) == PropType(s, key, depth, cap)
    decreases s, 0, 0
  {
    hide Render, Promises, Name;
    var propSchema := Properties(s)[key];
    f := Field(key, Any);
    if Spelled(propSchema, depth + 1, cap) {
      var t := RenderingMeans(propSchema, depth + 1, cap);
      f := Field(key, t);
    }
  }

  /** The type text of one property. */
  ghost function PropType(s: Object, key: string, depth: nat, cap: Option<nat>): string
    requires key in Properties(s)
  {
    if Properties(s)[key].Obj? then Clip(Render(Properties(s)[key], depth + 1, cap)) else "any"
  }

  lemma RenderOneMore(s: Object, keys: seq<string>, depth: nat, cap: Option<nat>)
    requires keys != [] && forall key :: key in keys ==> key in Properties(s)
    ensures Last(keys) in keys && forall key :: key in Front(keys) ==> key in keys
    ensures keys == Front(keys) + [Last(keys)]
    ensures RenderProperties(s, keys, depth, cap) ==
      RenderProperties(s, Front(keys), depth, cap) + (if |keys| > 1 then "; " else "") + Last(keys) + ": " +
      PropType(s, Last(keys), depth, cap)
  {
    hide Render;
  }

  lemma {:induction false} FieldsMean(s: Object, keys: seq<string>, depth: nat, cap: Option<nat>)
    returns (fields: seq<Field>)
    requires forall key :: key in keys ==> key in Properties(s)
    ensures |fields| == |keys| && WrittenFields(fields) == RenderProperties(s, keys, depth, cap)
    ensures forall i :: 0 <= i < |keys| ==> FieldMeans(fields[i], s, keys[i], depth, cap)
    decreases s, 0, |keys|
  {
    hide *;
    if keys == [] {
      fields := [];
      NoFields(s, depth, cap);
    } else {
      RenderOneMore(s, keys, depth, cap);
      var before := FieldsMean(s, Front(keys), depth, cap);
      var f := FieldMeaning(s, Last(keys), depth, cap);
      fields := before + [f];
      WrittenOneMore(before, f);
      NamedAfter(f, s, Last(keys), depth, cap);
    }
  }

  lemma NoFields(s: Object, depth: nat, cap: Option<nat>)
    ensures WrittenFields([]) == "" && RenderProperties(s, [], depth, cap) == ""
  {
  }

  lemma NamedAfter(f: Field, s: Object, key: string, depth: nat, cap: Option<nat>)
    requires key in Properties(s) && FieldMeans(f, s, key, depth, cap)
    ensures f.name == key
  {
  }

  lemma Regroup(a: string, b: string, c: string, d: string, e: string)
    ensures a + (b + (c + (d + e))) == a + b + c + d + e
  {
  }

  lemma RegroupEnd(head: string, rest: string, separator: string, name: string, typ: string)
    requires (rest == "" && separator == "") || separator == "; "
    ensures head + "; " + (rest + separator + name + ": " + typ) == head + separator + rest + "; " + name + ": " + typ
  {
  }

  lemma WrittenFirst(fields: seq<Field>)
    requires fields != []
    ensures WrittenFields(fields) == fields[0].name + ": " + Written(fields[0].typ) +
      (if |fields| == 1 then "" else "; ") + WrittenFields(fields[1..])
  {
    var separator, rest := if |fields| == 1 then "" else "; ", WrittenFields(fields[1..]);
    Regroup(fields[0].name, ": ", Written(fields[0].typ), separator, rest);
    hide Written;
    assert |fields| == 1 ==> rest == "" && separator + rest == "";
  }

  lemma {:induction false} WrittenOneMore(fields: seq<Field>, f: Field)
    ensures WrittenFields(fields + [f]) ==
      WrittenFields(fields) + (if fields == [] then "" else "; ") + f.name + ": " + Written(f.typ)
  {
    var more := fields + [f];
    WrittenFirst(more);
    if fields == [] {
      assert more == [f];
    } else {
      assert fields[1..] == [] ==> WrittenFields(fields[1..]) == "";
      hide Written, WrittenFields;
      assert more[0] == fields[0] && more[1..] == fields[1..] + [f];
      WrittenOneMore(fields[1..], f);
      WrittenFirst(fields);
      RegroupEnd(fields[0].name + ": " + Written(fields[0].typ), WrittenFields(fields[1..]),
                 if fields[1..] == [] then "" else "; ", f.name, Written(f.typ));
    }
  }

  /** Whatever the schema, its rendering is the text of a type, and admits just the values the schema promises as far as
      it is rendered. */
  lemma RenderingAdmitsIff(s: Object, depth: nat, cap: Option<nat>, v: Json)
    ensures TextAdmits(Render(s, depth, cap), v) <==> Promises(s, depth, cap, v)
  {
    hide ReadType, Written, Render;
    var t := RenderingMeans(s, depth, cap);
    TextMeansType(t);
  }

  /** A value that conforms to a schema is admitted by its rendering: leaving things out only admits more. */
  lemma {:induction false} ConformingIsPromised(s: Object, depth: nat, cap: Option<nat>, v: Json)
    requires Conforms(s, v)
    ensures Promises(s, depth, cap, v)
    decreases s
  {
    if TypeOf(s) == "array" && "items" in s.fields && s.fields["items"].Obj? {
      forall i | 0 <= i < |v.items|
        ensures Promises(s.fields["items"], depth + 1, cap, v.items[i])
      {
        ConformingIsPromised(s.fields["items"], depth + 1, cap, v.items[i]);
      }
    } else if TypeOf(s) == "object" {
      forall key | key in Properties(s) && Properties(s)[key].Obj?
        ensures Promises(Properties(s)[key], depth + 1, cap, v.fields[key])
      {
        ConformingIsPromised(Properties(s)[key], depth + 1, cap, v.fields[key]);
      }
    }
  }

  lemma ConformingIsAdmitted(s: Object, v: Json)
    requires Conforms(s, v)
    ensures TextAdmits(Render(s, 0, Some(MAX_RENDER_DEPTH)), v)
  {
    ConformingIsPromised(s, 0, Some(MAX_RENDER_DEPTH), v);
    RenderingAdmitsIff(s, 0, Some(MAX_RENDER_DEPTH), v);
  }

  /** Nothing of the schema is left out: every property is an identifier with a type that is written out. */
  ghost predicate WrittenOut(s: Object, depth: nat, cap: Option<nat>)
    decreases s
  {
    && (cap.Some? ==> depth <= cap.value)
    && (TypeOf(s) == "array" && "items" in s.fields && s.fields["items"].Obj? ==>
         WrittenOut(s.fields["items"], depth + 1, cap))
    && (TypeOf(s) == "object" ==> forall key :: key in Properties(s) ==>
         && Name(key)
         && (Properties(s)[key].Obj? ==>
              Spelled(Properties(s)[key], depth + 1, cap) && WrittenOut(Properties(s)[key], depth + 1, cap)))
  }

  lemma {:induction false} PromisedConforms(s: Object, depth: nat, cap: Option<nat>, v: Json)
    requires WrittenOut(s, depth, cap) && Promises(s, depth, cap, v)
    ensures Conforms(s, v)
    decreases s
  {
    hide Render, Name;
    if TypeOf(s) == "array" && "items" in s.fields && s.fields["items"].Obj? {
      forall i | 0 <= i < |v.items|
        ensures Conforms(s.fields["items"], v.items[i])
      {
        PromisedConforms(s.fields["items"], depth + 1, cap, v.items[i]);
      }
    } else if TypeOf(s) == "object" {
      forall key | key in Properties(s) && Properties(s)[key].Obj?
        ensures Conforms(Properties(s)[key], v.fields[key])
      {
        assert PropertyPromises(s, key, depth, cap, v.fields[key]);
        PromisedConforms(Properties(s)[key], depth + 1, cap, v.fields[key]);
      }
    }
  }

  /** A schema rendered without omissions admits its own values and no others. */
  lemma WrittenOutIsExact(s: Object, v: Json)
    requires WrittenOut(s, 0, Some(MAX_RENDER_DEPTH))
    ensures TextAdmits(Render(s, 0, Some(MAX_RENDER_DEPTH)), v) <==> Conforms(s, v)
  {
    RenderingAdmitsIff(s, 0, Some(MAX_RENDER_DEPTH), v);
    if Conforms(s, v) {
      ConformingIsPromised(s, 0, Some(MAX_RENDER_DEPTH), v);
    } else if Promises(s, 0, Some(MAX_RENDER_DEPTH), v) {
      PromisedConforms(s, 0, Some(MAX_RENDER_DEPTH), v);
    }
  }

  // ---------------------------------------------------------------------------------------------------
  // What the type inferred from one result says of another
  // ---------------------------------------------------------------------------------------------------

  /** One value looks like another, as far as inference looks: at the first element of an array, at every field of an
      object that is neither empty nor too large, and four levels down only whether there is an object. */
  ghost predicate LooksLike(v: Json, w: Json, depth: nat)
    decreases w
  {
    if depth > MAX_SCHEMA_DEPTH then v.Obj?
    else
      match w
      case Null => v.Null? || v.Str?
      case Bool(_) => v.Bool?
      case Num(_) => v.Num?
      case Str(_) => v.Null? || v.Str?
      case Arr(items) =>
        v.Arr? && (items != [] ==> forall i :: 0 <= i < |v.items| ==> LooksLike(v.items[i], items[0], depth + 1))
      case Obj(fields) =>
        v.Obj? && (|fields| <= MAX_PROPERTIES ==>
          forall key :: key in fields ==> key in v.fields && LooksLike(v.fields[key], fields[key], depth + 1))
  }

  lemma {:induction false} InferredConformsIff(v: Json, w: Json, depth: nat)
    ensures Conforms(Inferred(w, depth), v) <==> LooksLike(v, w, depth)
    decreases w, 1
  {
    if depth <= MAX_SCHEMA_DEPTH && w.Arr? && w.items != [] {
      ElementsConformIff(v, w, depth);
    } else if depth <= MAX_SCHEMA_DEPTH && w.Obj? && v.Obj? && 0 < |w.fields| <= MAX_PROPERTIES {
      FieldsConformIff(v, w, depth);
    } else {
      ShallowConformsIff(v, w, depth);
    }
  }

  lemma ShallowConformsIff(v: Json, w: Json, depth: nat)
    requires depth > MAX_SCHEMA_DEPTH || !w.Arr? || w.items == []
    requires depth > MAX_SCHEMA_DEPTH || !w.Obj? || !v.Obj? || !(0 < |w.fields| <= MAX_PROPERTIES)
    ensures Conforms(Inferred(w, depth), v) <==> LooksLike(v, w, depth)
  {
  }

  lemma {:induction false} ElementsConformIff(v: Json, w: Json, depth: nat)
    requires depth <= MAX_SCHEMA_DEPTH && w.Arr? && w.items != []
    ensures Conforms(Inferred(w, depth), v) <==> LooksLike(v, w, depth)
    decreases w, 0
  {
    var items := Inferred(w.items[0], depth + 1);
    assert Inferred(w, depth) == ArraySchema(items);
    hide Inferred;
    if v.Arr? {
      forall i | 0 <= i < |v.items|
        ensures Conforms(items, v.items[i]) <==> LooksLike(v.items[i], w.items[0], depth + 1)
      {
        InferredConformsIff(v.items[i], w.items[0], depth + 1);
      }
    }
  }

  lemma {:induction false} FieldsConformIff(v: Object, w: Object, depth: nat)
    requires depth <= MAX_SCHEMA_DEPTH && 0 < |w.fields| <= MAX_PROPERTIES
    ensures Conforms(Inferred(w, depth), v) <==> LooksLike(v, w, depth)
    decreases w, 0
  {
    hide Inferred, Conforms, Properties, TypeOf;
    InferredProperties(w, depth);
    ConformsByFields(Inferred(w, depth), v);
    var props := Properties(Inferred(w, depth));
    forall key | key in w.fields && key in v.fields
      ensures Conforms(props[key], v.fields[key]) <==> LooksLike(v.fields[key], w.fields[key], depth + 1)
    {
      InferredConformsIff(v.fields[key], w.fields[key], depth + 1);
    }
  }

  lemma ConformsByFields(s: Object, v: Object)
    requires TypeOf(s) == "object" && forall key :: key in Properties(s) ==> Properties(s)[key].Obj?
    ensures Conforms(s, v) <==> forall key :: key in Properties(s) ==>
      key in v.fields && Conforms(Properties(s)[key], v.fields[key])
  {
  }

  /** The type shown for a tool after one result admits every later result that looks like it. */
  lemma LaterResultsAreAdmitted(v: Json, w: Json)
    requires LooksLike(v, w, 0)
    ensures TextAdmits(Render(Inferred(w, 0), 0, Some(MAX_RENDER_DEPTH)), v)
  {
    InferredConformsIff(v, w, 0);
    ConformingIsAdmitted(Inferred(w, 0), v);
  }

  /** A value with every array cut down to its first element, which is all of it a schema speaks of. */
  function Firsts(v: Json): Json {
    match v
    case Arr(items) => if items == [] then v else Arr([Firsts(items[0])])
    case Obj(fields) => Obj(map key | key in fields :: Firsts(fields[key]))
    case _ => v
  }

  lemma {:induction false} DescribedConforms(s: Object, v: Json)
    requires Describes(s, v)
    ensures Conforms(s, Firsts(v))
    decreases v
  {
    match v
    case Arr(items) =>
      if items != [] {
        DescribedConforms(s.fields["items"], items[0]);
      }
    case Obj(fields) =>
      forall key | key in Properties(s) && Properties(s)[key].Obj?
        ensures key in fields && Conforms(Properties(s)[key], Firsts(fields[key]))
      {
        assert DescribesFields(s, v);
        DescribedConforms(Properties(s)[key], fields[key]);
      }
    case _ =>
  }

  /** Where a schema describes a value, its rendering admits that value with its arrays cut down so. */
  lemma DescribedIsAdmitted(s: Object, v: Json)
    requires Describes(s, v)
    ensures TextAdmits(Render(s, 0, Some(MAX_RENDER_DEPTH)), Firsts(v))
  {
    DescribedConforms(s, v);
    ConformingIsAdmitted(s, Firsts(v));
  }

  /** With its other elements a value may well not be admitted by the type inferred from it: an array of a number and a
      string is shown as one of numbers. */
  lemma MixedArrayIsNotAdmitted(n: real, text: string)
    ensures var v := Arr([Num(n), Str(text)]);
      Describes(Inferred(v, 0), v) && !TextAdmits(Render(Inferred(v, 0), 0, Some(MAX_RENDER_DEPTH)), v)
  {
    var v := Arr([Num(n), Str(text)]);
    assert v.items[1] == Str(text);
    assert !LooksLike(v, v, 0);
    InferredConformsIff(v, v, 0);
    assert TypeOf(Inferred(v, 0)) == "array" && TypeOf(Inferred(v, 0).fields["items"]) == "number";
    WrittenOutIsExact(Inferred(v, 0), v);
  }
}
