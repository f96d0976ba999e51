/**
 The parser of the event list (tools/etwlttng/Parser.cs): one pass over classified lines with a
 dictionary of fields, proved against a specification that looks at each line's surroundings.

 A line carries what each of the parser's tests would find in it; which tests apply depends on
 the section the line is in.  Parsing of decimal numbers is a parameter.
 */
module TraceParser {
  import opened TraceModel
  import opened Wrappers

  /** A match of the list-line pattern; the digits of the id may not fit an `int`. */
  datatype Listing = Listing(name: string, id: Option<int>, level: string, keywords: string, deprecated: bool)

  datatype Line = Line(
    comment: bool,
    startsList: bool,
    startsDefns: bool,
    blank: bool,
    listing: Option<Listing>,
    define: Option<string>,
    data: Option<seq<Attribute>>)

  datatype Attribute = Attribute(name: string, value: string)

  datatype Section = Header | List | Defns

  datatype Result = Events(events: seq<TraceEvent>) | Throws(line: nat)

  // ----- data lines -----

  /** The attributes as a dictionary: a repeated name keeps its last value. */
  function Lookup(attributes: seq<Attribute>, name: string): Option<string> {
    if attributes == [] then None
    else if attributes[|attributes| - 1].name == name then Some(attributes[|attributes| - 1].value)
    else Lookup(attributes[..|attributes| - 1], name)
  }

  function ParseInType(raw: string): Option<WinType> {
    match raw
    case "win:UInt8" => Some(UInt8)
    case "win:UInt16" => Some(UInt16)
    case "win:UInt32" => Some(UInt32)
    case "win:UInt64" => Some(UInt64)
    case "win:Int32" => Some(Int32)
    case "win:Int64" => Some(Int64)
    case "win:Double" => Some(Double)
    case "win:Pointer" => Some(Pointer)
    case "win:GUID" => Some(Guid)
    case "win:UnicodeString" => Some(UnicodeString)
    case "win:AnsiString" => Some(AnsiString)
    case "win:Binary" => Some(Binary)
    case _ => None
  }

  datatype DataResult = NoField | Field(field: TraceField) | BadData

  function FieldFrom(inType: Option<string>, name: Option<string>, length: Option<string>, parseInt: string -> Option<int>): DataResult {
    if inType.None? || name.None? then NoField
    else
      match ParseInType(inType.value)
      case None => BadData
      case Some(t) =>
        if !t.Binary? || length.None? then Field(TraceField(name.value, t, 0))
        else match parseInt(length.value)
          case None => BadData
          case Some(n) => Field(TraceField(name.value, t, n))
  }

  function DataField(attributes: seq<Attribute>, parseInt: string -> Option<int>): DataResult {
    FieldFrom(Lookup(attributes, "inType"), Lookup(attributes, "name"), Lookup(attributes, "length"), parseInt)
  }

  /** How a type is written in the event list. */
  function TypeName(t: WinType): string {
    match t
    case UInt8 => "win:UInt8"
    case UInt16 => "win:UInt16"
    case UInt32 => "win:UInt32"
    case UInt64 => "win:UInt64"
    case Int32 => "win:Int32"
    case Int64 => "win:Int64"
    case Double => "win:Double"
    case Pointer => "win:Pointer"
    case Guid => "win:GUID"
    case UnicodeString => "win:UnicodeString"
    case AnsiString => "win:AnsiString"
    case Binary => "win:Binary"
  }

  /** A name means the type that is written so, and any other name none. */
  lemma TypeNamesMean(raw: string, t: WinType)
    ensures ParseInType(raw) == Some(t) <==> raw == TypeName(t)
  {
  }

  /** The dictionary holds the last value given for a name, if any is given. */
  lemma {:induction false} LookupIsLast(attributes: seq<Attribute>, name: string)
    ensures Lookup(attributes, name).None? <==> forall i :: 0 <= i < |attributes| ==> attributes[i].name != name
    ensures forall i :: 0 <= i < |attributes| && attributes[i].name == name
                        && (forall j :: i < j < |attributes| ==> attributes[j].name != name) ==>
              Lookup(attributes, name) == Some(attributes[i].value)
    decreases |attributes|
  {
    if attributes != [] && attributes[|attributes| - 1].name != name {
      LookupIsLast(attributes[..|attributes| - 1], name);
    }
  }

  /** A data line gives exactly the field it describes; the length is kept for blocks of bytes only. */
  lemma DataLineMeans(attributes: seq<Attribute>, parseInt: string -> Option<int>, f: TraceField)
    ensures var inType, name, length := Lookup(attributes, "inType"), Lookup(attributes, "name"), Lookup(attributes, "length");
            DataField(attributes, parseInt) == Field(f) <==>
              && inType == Some(TypeName(f.inType)) && name == Some(f.name)
              && (if f.inType.Binary? && length.Some? then parseInt(length.value) == Some(f.binaryLength)
                  else f.binaryLength == 0)
  {
    hide Lookup, ParseInType, TypeName;
    var inType := Lookup(attributes, "inType");
    if inType.Some? {
      TypeNamesMean(inType.value, f.inType);
    }
  }

  // ----- the specification -----

  /** A line that is neither a comment, a section marker nor blank. */
  predicate Plain(line: Line) {
    !line.comment && !line.startsList && !line.startsDefns && !line.blank
  }

  /** The section that line `i` is in: that of the last marker before it. */
  function SectionAt(lines: seq<Line>, i: nat): Section
    requires i <= |lines|
  {
    if i == 0 then Header
    else
      var line := lines[i - 1];
      if !line.comment && line.startsList then List
      else if !line.comment && line.startsDefns then Defns
      else SectionAt(lines, i - 1)
  }

  predicate IsListing(lines: seq<Line>, i: nat)
    requires i < |lines|
  {
    Plain(lines[i]) && SectionAt(lines, i).List? && lines[i].listing.Some?
  }

  predicate IsDefine(lines: seq<Line>, i: nat)
    requires i < |lines|
  {
    Plain(lines[i]) && SectionAt(lines, i).Defns? && lines[i].define.Some?
  }

  /** The name of the last `Define` before line `i`. */
  function DefineAt(lines: seq<Line>, i: nat): Option<string>
    requires i <= |lines|
  {
    if i == 0 then None
    else if IsDefine(lines, i - 1) then lines[i - 1].define
    else DefineAt(lines, i - 1)
  }

  /** A data line that belongs to the event of the last `Define` before it. */
  predicate IsData(lines: seq<Line>, i: nat)
    requires i < |lines|
  {
    && Plain(lines[i]) && SectionAt(lines, i).Defns? && lines[i].define.None?
    && DefineAt(lines, i).Some? && lines[i].data.Some?
  }

  predicate LineThrows(lines: seq<Line>, i: nat, parseInt: string -> Option<int>)
    requires i < |lines|
  {
    || (IsListing(lines, i) && lines[i].listing.value.id.None?)
    || (IsData(lines, i) && DataField(lines[i].data.value, parseInt).BadData?)
  }

  /** In file order, the fields of the data lines before line `i` whose last `Define` names the event. */
  function FieldsOf(lines: seq<Line>, name: string, parseInt: string -> Option<int>, i: nat): seq<TraceField>
    requires i <= |lines|
  {
    if i == 0 then []
    else
      var before := FieldsOf(lines, name, parseInt, i - 1);
      if IsData(lines, i - 1) && DefineAt(lines, i - 1) == Some(name) && DataField(lines[i - 1].data.value, parseInt).Field?
      then before + [DataField(lines[i - 1].data.value, parseInt).field]
      else before
  }

  /** In file order, the listings before line `i`. */
  function ListingsOf(lines: seq<Line>, i: nat): seq<Listing>
    requires i <= |lines|
  {
    if i == 0 then []
    else ListingsOf(lines, i - 1) + if IsListing(lines, i - 1) then [lines[i - 1].listing.value] else []
  }

  /** `entries` with their ids read. */
  predicate Joined(lines: seq<Line>, parseInt: string -> Option<int>, entries: seq<Listing>, events: seq<TraceEvent>) {
    && |events| == |entries|
    && forall k :: 0 <= k < |entries| ==>
         && entries[k].id.Some?
         && events[k] == TraceEvent(entries[k].name, entries[k].id.value, entries[k].level, entries[k].keywords,
                                    entries[k].deprecated, FieldsOf(lines, entries[k].name, parseInt, |lines|))
  }

  // ----- the parser -----

  method ReadAttributes(attributes: seq<Attribute>) returns (attrs: map<string, string>)
    ensures forall name :: Lookup(attributes, name) == if name in attrs then Some(attrs[name]) else None
  {
    attrs := map[];
    for i := 0 to |attributes|
      invariant forall name :: Lookup(attributes[..i], name) == if name in attrs then Some(attrs[name]) else None
    {
      var a := attributes[i];
      assert attributes[..i + 1][..i] == attributes[..i];
      attrs := attrs[a.name := a.value];
    }
    assert attributes[..|attributes|] == attributes;
  }

  method ReadData(attributes: seq<Attribute>, parseInt: string -> Option<int>) returns (r: DataResult)
    ensures r == DataField(attributes, parseInt)
  {
    hide Lookup, ParseInType;
    var attrs := ReadAttributes(attributes);
    if "inType" !in attrs || "name" !in attrs {
      return NoField;
    }
    var inType := ParseInType(attrs["inType"]);
    if inType.None? {
      return BadData;
    }
    var binaryLength := 0;
    if inType.value == Binary && "length" in attrs {
      var length := parseInt(attrs["length"]);
      if length.None? {
        return BadData;
      }
      binaryLength := length.value;
    }
    return Field(TraceField(attrs["name"], inType.value, binaryLength));
  }

  /** What the pass has gathered after `i` lines is what the specification says of those lines. */
  ghost predicate Gathered(lines: seq<Line>, parseInt: string -> Option<int>, i: nat,
                           entries: seq<Listing>, fieldsByName: map<string, seq<TraceField>>, current: Option<string>)
    requires i <= |lines|
  {
    && entries == ListingsOf(lines, i)
    && current == DefineAt(lines, i)
    && (current.Some? ==> current.value in fieldsByName)
    && (forall name :: name in fieldsByName ==> fieldsByName[name] == FieldsOf(lines, name, parseInt, i))
    && (forall name :: name !in fieldsByName ==> FieldsOf(lines, name, parseInt, i) == [])
    && (forall k :: 0 <= k < i ==> !LineThrows(lines, k, parseInt))
    && (forall k :: 0 <= k < |entries| ==> entries[k].id.Some?)
  }

  /** A line that adds nothing. */
  lemma GatherNothing(lines: seq<Line>, parseInt: string -> Option<int>, i: nat,
                      entries: seq<Listing>, fieldsByName: map<string, seq<TraceField>>, current: Option<string>)
    requires i < |lines| && Gathered(lines, parseInt, i, entries, fieldsByName, current)
    requires !IsListing(lines, i) && !IsDefine(lines, i)
    requires IsData(lines, i) ==> DataField(lines[i].data.value, parseInt).NoField?
    ensures Gathered(lines, parseInt, i + 1, entries, fieldsByName, current)
  {
    hide DataField, IsListing, IsDefine, IsData;
    assert entries + [] == entries;
  }

  lemma GatherListing(lines: seq<Line>, parseInt: string -> Option<int>, i: nat,
                      entries: seq<Listing>, fieldsByName: map<string, seq<TraceField>>, current: Option<string>)
    requires i < |lines| && Gathered(lines, parseInt, i, entries, fieldsByName, current)
    requires IsListing(lines, i) && lines[i].listing.value.id.Some?
    ensures Gathered(lines, parseInt, i + 1, entries + [lines[i].listing.value], fieldsByName, current)
  {
    hide DataField;
  }

  lemma GatherDefine(lines: seq<Line>, parseInt: string -> Option<int>, i: nat,
                     entries: seq<Listing>, fieldsByName: map<string, seq<TraceField>>, current: Option<string>)
    requires i < |lines| && Gathered(lines, parseInt, i, entries, fieldsByName, current)
    requires IsDefine(lines, i)
    ensures var name := lines[i].define.value;
            Gathered(lines, parseInt, i + 1, entries,
                     if name in fieldsByName then fieldsByName else fieldsByName[name := []], Some(name))
  {
    hide DataField;
    assert entries + [] == entries;
  }

  lemma GatherField(lines: seq<Line>, parseInt: string -> Option<int>, i: nat,
                    entries: seq<Listing>, fieldsByName: map<string, seq<TraceField>>, current: Option<string>)
    requires i < |lines| && Gathered(lines, parseInt, i, entries, fieldsByName, current)
    requires IsData(lines, i) && DataField(lines[i].data.value, parseInt).Field?
    ensures current.Some? && current.value in fieldsByName
    ensures var field := DataField(lines[i].data.value, parseInt).field;
            Gathered(lines, parseInt, i + 1, entries,
                     fieldsByName[current.value := fieldsByName[current.value] + [field]], current)
  {
    hide DataField;
    assert entries + [] == entries;
  }

  datatype Pass = Pass(entries: seq<Listing>, fieldsByName: map<string, seq<TraceField>>, current: Option<string>)

  /** What a line of the definitions does. */
  method ReadDefinition(lines: seq<Line>, parseInt: string -> Option<int>, i: nat, pass: Pass) returns (ok: bool, next: Pass)
    requires i < |lines| && Plain(lines[i]) && SectionAt(lines, i).Defns?
    requires Gathered(lines, parseInt, i, pass.entries, pass.fieldsByName, pass.current)
    ensures ok <==> !LineThrows(lines, i, parseInt)
    ensures ok ==> Gathered(lines, parseInt, i + 1, next.entries, next.fieldsByName, next.current)
  {
    hide DataField, FieldsOf, ListingsOf;
    ok, next := true, pass;
    var line := lines[i];
    if line.define.Some? {
      var name := line.define.value;
      if name !in pass.fieldsByName {
        next := next.(fieldsByName := pass.fieldsByName[name := []]);
      }
      next := next.(current := line.define);
      GatherDefine(lines, parseInt, i, pass.entries, pass.fieldsByName, pass.current);
      return;
    }
    if pass.current.None? || line.data.None? {
      GatherNothing(lines, parseInt, i, pass.entries, pass.fieldsByName, pass.current);
      return;
    }
    var data := ReadData(line.data.value, parseInt);
    match data {
      case NoField =>
        GatherNothing(lines, parseInt, i, pass.entries, pass.fieldsByName, pass.current);
      case BadData =>
        ok := false;
      case Field(field) =>
        var name := pass.current.value;
        next := next.(fieldsByName := pass.fieldsByName[name := pass.fieldsByName[name] + [field]]);
        GatherField(lines, parseInt, i, pass.entries, pass.fieldsByName, pass.current);
    }
  }

  method Gather(lines: seq<Line>, parseInt: string -> Option<int>) returns (stopped: Option<nat>, pass: Pass)
    ensures stopped.None? ==> Gathered(lines, parseInt, |lines|, pass.entries, pass.fieldsByName, pass.current)
    ensures stopped.Some? ==> stopped.value < |lines| && LineThrows(lines, stopped.value, parseInt)
                              && forall k :: 0 <= k < stopped.value ==> !LineThrows(lines, k, parseInt)
  {
    hide DataField, FieldsOf, ListingsOf;
    pass := Pass([], map[], None);
    NothingGathered(lines, parseInt);
    var state := Header;
    for i := 0 to |lines|
      invariant state == SectionAt(lines, i)
      invariant Gathered(lines, parseInt, i, pass.entries, pass.fieldsByName, pass.current)
    {
      var line := lines[i];
      if line.comment || line.startsList || line.startsDefns || line.blank {
        GatherNothing(lines, parseInt, i, pass.entries, pass.fieldsByName, pass.current);
        if !line.comment && line.startsList {
          state := List;
        } else if !line.comment && line.startsDefns {
          state := Defns;
        }
        continue;
      }
      if state == List && line.listing.Some? {
        if line.listing.value.id.None? {
          assert LineThrows(lines, i, parseInt);
          return Some(i), pass;
        }
        GatherListing(lines, parseInt, i, pass.entries, pass.fieldsByName, pass.current);
        pass := pass.(entries := pass.entries + [line.listing.value]);
      } else if state == Defns {
        var ok;
        ok, pass := ReadDefinition(lines, parseInt, i, pass);
        if !ok {
          return Some(i), pass;
        }
      } else {
        GatherNothing(lines, parseInt, i, pass.entries, pass.fieldsByName, pass.current);
      }
    }
    stopped := None;
  }

  lemma NothingGathered(lines: seq<Line>, parseInt: string -> Option<int>)
    ensures Gathered(lines, parseInt, 0, [], map[], None)
  {
  }

  /**
   Events come in list order, each with all the fields that the definitions give it, also when
   definitions are repeated or out of order; the first line that cannot be read stops the
   parser, and only such a line does.
   */
  method Parse(lines: seq<Line>, parseInt: string -> Option<int>) returns (r: Result)
    ensures r.Throws? <==> exists k :: 0 <= k < |lines| && LineThrows(lines, k, parseInt)
    ensures r.Throws? ==> r.line < |lines| && LineThrows(lines, r.line, parseInt)
                          && forall k :: 0 <= k < r.line ==> !LineThrows(lines, k, parseInt)
    ensures r.Events? ==> Joined(lines, parseInt, ListingsOf(lines, |lines|), r.events)
  {
    hide DataField, FieldsOf, ListingsOf, LineThrows;
    var stopped, pass := Gather(lines, parseInt);
    if stopped.Some? {
      return Throws(stopped.value);
    }
    var entries := pass.entries;
    var events := [];
    for k := 0 to |entries|
      invariant Joined(lines, parseInt, entries[..k], events)
    {
      var entry := entries[k];
      var fields := if entry.name in pass.fieldsByName then pass.fieldsByName[entry.name] else [];
      events := events + [TraceEvent(entry.name, entry.id.value, entry.level, entry.keywords, entry.deprecated, fields)];
    }
    assert entries[..|entries|] == entries;
    return Events(events);
  }
}
