/** JSON as JSON.stringify writes it with an indent of two, and how many bytes that takes. */
module JsonText {
  import opened Basics
  import Utf8

  /** A value; a leaf is a string, a number or another scalar in its JSON form, without line breaks. */
  datatype Json = Leaf(text: string) | Arr(items: seq<Json>) | Obj(fields: seq<Field>)

  datatype Field = Field(key: string, value: Json)

  function Spaces(n: nat): (s: string)
    ensures |s| == n && forall i | 0 <= i < n :: s[i] == ' '
  {
    if n == 0 then "" else " " + Spaces(n - 1)
  }

  function Pretty(v: Json, indent: nat): string
    decreases v
  {
    match v
    case Leaf(text) => text
    case Arr(items) => if items == [] then "[]" else "[\n" + (Items(items, indent + 2) + ("\n" + (Spaces(indent) + "]")))
    case Obj(fields) => if fields == [] then "{}" else "{\n" + (Fields(fields, indent + 2) + ("\n" + (Spaces(indent) + "}")))
  }

  /** The items of a list, each on lines of its own. */
  function Items(items: seq<Json>, indent: nat): string
    requires items != []
    decreases items
  {
    var first := Spaces(indent) + Pretty(items[0], indent);
    if |items| == 1 then first else first + (",\n" + Items(items[1..], indent))
  }

  function Fields(fields: seq<Field>, indent: nat): string
    requires fields != []
    decreases fields
  {
    var first := Spaces(indent) + (fields[0].key + (": " + Pretty(fields[0].value, indent)));
    if |fields| == 1 then first else first + (",\n" + Fields(fields[1..], indent))
  }

  // ---- sizes ----

  function Size(s: string): nat { |Utf8.Encode(s)| }

  lemma SizeAppend(a: string, b: string)
    ensures Size(a + b) == Size(a) + Size(b)
  {
    Utf8.EncodeAppend(a, b);
  }

  predicate Ascii(s: string) { forall i | 0 <= i < |s| :: s[i] < '\U{80}' }

  lemma {:induction false} SizeAscii(s: string)
    requires Ascii(s)
    ensures Size(s) == |s|
  {
    if s != "" { SizeAscii(s[1..]); }
  }

  /** The bytes of one item of a list, with its indentation. */
  function ItemSize(v: Json, indent: nat): nat { Size(Spaces(indent) + Pretty(v, indent)) }

  function ItemSizes(items: seq<Json>, indent: nat): nat {
    if items == [] then 0 else ItemSize(items[0], indent) + ItemSizes(items[1..], indent)
  }

  lemma {:induction false} ItemsSize(items: seq<Json>, indent: nat)
    requires items != []
    ensures Size(Items(items, indent)) == ItemSizes(items, indent) + 2 * (|items| - 1)
    decreases |items|
  {
    hide Size;
    var first := Spaces(indent) + Pretty(items[0], indent);
    if |items| == 1 {
      assert items[1..] == [];
    } else {
      ItemsSize(items[1..], indent);
      SizeAppend(first, ",\n" + Items(items[1..], indent));
      SizeAppend(",\n", Items(items[1..], indent));
      SizeAscii(",\n");
    }
  }

  /** A list with items takes, beside their bytes, two for each separator and the two line breaks and the indent around them. */
  lemma ArrSize(items: seq<Json>, indent: nat)
    ensures Size(Pretty(Arr(items), indent)) == if items == [] then 2 else ItemSizes(items, indent + 2) + 2 * |items| + 2 + indent
  {
    hide Size, Items, ItemSizes;
    if items == [] {
      SizeAscii("[]");
    } else {
      ItemsSize(items, indent + 2);
      var tail := "\n" + (Spaces(indent) + "]");
      SizeAscii(tail);
      SizeAscii("[\n");
      SizeAppend(Items(items, indent + 2), tail);
      SizeAppend("[\n", Items(items, indent + 2) + tail);
    }
  }

  /** Of the fields of an object only the changed one's size matters. */
  lemma {:induction false} FieldsChange(front: seq<Field>, f: Field, g: Field, back: seq<Field>, indent: nat)
    requires f.key == g.key
    ensures Size(Fields(front + ([f] + back), indent)) + Size(Pretty(g.value, indent)) == Size(Fields(front + ([g] + back), indent)) + Size(Pretty(f.value, indent))
    decreases |front|
  {
    hide Size, Pretty;
    if front == [] {
      Neutral([f] + back);
      Neutral([g] + back);
      FieldsFirst(f, back, indent);
      FieldsFirst(g, back, indent);
    } else {
      HeadTail(front, [f] + back);
      HeadTail(front, [g] + back);
      FieldsChange(front[1..], f, g, back, indent);
      FieldsFirst(front[0], front[1..] + ([f] + back), indent);
      FieldsFirst(front[0], front[1..] + ([g] + back), indent);
    }
  }

  lemma FieldsFirst(f: Field, rest: seq<Field>, indent: nat)
    ensures Size(Fields([f] + rest, indent)) ==
      indent + Size(f.key) + 2 + Size(Pretty(f.value, indent)) + (if rest == [] then 0 else 2 + Size(Fields(rest, indent)))
  {
    hide Size, Pretty;
    assert ([f] + rest)[1..] == rest;
    var value := ": " + Pretty(f.value, indent);
    SizeAscii(Spaces(indent));
    SizeAscii(": ");
    SizeAppend(": ", Pretty(f.value, indent));
    SizeAppend(f.key, value);
    SizeAppend(Spaces(indent), f.key + value);
    if rest != [] {
      SizeAscii(",\n");
      SizeAppend(",\n", Fields(rest, indent));
      SizeAppend(Spaces(indent) + (f.key + value), ",\n" + Fields(rest, indent));
    }
  }

  lemma ObjSize(fields: seq<Field>, indent: nat)
    requires fields != []
    ensures Size(Pretty(Obj(fields), indent)) == Size(Fields(fields, indent + 2)) + 4 + indent
  {
    hide Size, Fields;
    var tail := "\n" + (Spaces(indent) + "}");
    SizeAscii(tail);
    SizeAscii("{\n");
    SizeAppend(Fields(fields, indent + 2), tail);
    SizeAppend("{\n", Fields(fields, indent + 2) + tail);
  }

  // ---- indenting whole lines ----

  /** A text with the same indentation before each of its lines. */
  function Shifted(s: string, shift: nat): string { Spaces(shift) + ShiftedRest(s, shift) }

  function ShiftedRest(s: string, shift: nat): string {
    if s == "" then "" else if s[0] == '\n' then "\n" + (Spaces(shift) + ShiftedRest(s[1..], shift)) else [s[0]] + ShiftedRest(s[1..], shift)
  }

  predicate OneLine(s: string) { '\n' !in s }

  /** No scalar of the value contains a line break. */
  predicate OneLineLeaves(v: Json)
    decreases v
  {
    match v
    case Leaf(text) => OneLine(text)
    case Arr(items) => forall i | 0 <= i < |items| :: OneLineLeaves(items[i])
    case Obj(fields) => forall i | 0 <= i < |fields| :: OneLine(fields[i].key) && OneLineLeaves(fields[i].value)
  }

  lemma {:induction false} ShiftedAppend(a: string, b: string, shift: nat)
    ensures ShiftedRest(a + b, shift) == ShiftedRest(a, shift) + ShiftedRest(b, shift)
  {
    if a == "" {
      Neutral(b);
      Neutral(ShiftedRest(b, shift));
    } else {
      HeadTail(a, b);
      Split([a[0]], a[1..] + b);
      ShiftedAppend(a[1..], b, shift);
      Assoc([a[0]], ShiftedRest(a[1..], shift), ShiftedRest(b, shift));
      Assoc(Spaces(shift), ShiftedRest(a[1..], shift), ShiftedRest(b, shift));
      Assoc("\n", Spaces(shift) + ShiftedRest(a[1..], shift), ShiftedRest(b, shift));
    }
  }

  lemma {:induction false} ShiftedOneLine(s: string, shift: nat)
    requires OneLine(s)
    ensures ShiftedRest(s, shift) == s
  {
    if s != "" {
      assert s[0] in s && forall c | c in s[1..] :: c in s;
      ShiftedOneLine(s[1..], shift);
      assert [s[0]] + s[1..] == s;
    }
  }

  lemma ShiftedBreak(s: string, shift: nat)
    ensures ShiftedRest("\n" + s, shift) == "\n" + (Spaces(shift) + ShiftedRest(s, shift))
  {
    Split("\n", s);
  }

  lemma {:induction false} SpacesAdd(a: nat, b: nat)
    ensures Spaces(a) + Spaces(b) == Spaces(a + b)
  {
    if a == 0 {
      Neutral(Spaces(b));
    } else {
      SpacesAdd(a - 1, b);
      Assoc(" ", Spaces(a - 1), Spaces(b));
    }
  }

  /** Indenting every line of a value printed at the margin prints it at that indent. */
  lemma {:induction false} ShiftedPretty(v: Json, indent: nat, shift: nat)
    requires OneLineLeaves(v)
    ensures ShiftedRest(Pretty(v, indent), shift) == Pretty(v, indent + shift)
    decreases v
  {
    match v {
      case Leaf(text) => ShiftedOneLine(text, shift);
      case Arr(items) =>
        if items == [] { ShiftedOneLine("[]", shift); } else { ShiftedItems(items, indent + 2, shift); ShiftedFrame('[', Items(items, indent + 2), Items(items, indent + 2 + shift), indent, ']', shift); }
      case Obj(fields) =>
        if fields == [] { ShiftedOneLine("{}", shift); } else { ShiftedFields(fields, indent + 2, shift); ShiftedFrame('{', Fields(fields, indent + 2), Fields(fields, indent + 2 + shift), indent, '}', shift); }
    }
  }

  /** A frame around lines that are shifted already. */
  lemma ShiftedFrame(left: char, inner: string, shifted: string, indent: nat, right: char, shift: nat)
    requires Spaces(shift) + ShiftedRest(inner, shift) == shifted && left != '\n' && right != '\n'
    ensures ShiftedRest([left, '\n'] + (inner + ("\n" + (Spaces(indent) + [right]))), shift) == [left, '\n'] + (shifted + ("\n" + (Spaces(indent + shift) + [right])))
  {
    hide ShiftedRest, Spaces;
    var tail := Spaces(indent) + [right];
    var rest := inner + ("\n" + tail);
    assert [left, '\n'] + rest == [left] + ("\n" + rest);
    ShiftedAppend([left], "\n" + rest, shift);
    ShiftedOneLine([left], shift);
    ShiftedBreak(rest, shift);
    ShiftedAppend(inner, "\n" + tail, shift);
    ShiftedBreak(tail, shift);
    ShiftedOneLine(tail, shift);
    SpacesAdd(shift, indent);
    Assoc(Spaces(shift), ShiftedRest(inner, shift), "\n" + (Spaces(shift) + tail));
    Assoc(Spaces(shift), Spaces(indent), [right]);
    assert [left] + ("\n" + (shifted + ("\n" + (Spaces(indent + shift) + [right])))) == [left, '\n'] + (shifted + ("\n" + (Spaces(indent + shift) + [right])));
  }

  lemma {:induction false} ShiftedItems(items: seq<Json>, indent: nat, shift: nat)
    requires items != [] && forall i | 0 <= i < |items| :: OneLineLeaves(items[i])
    ensures Spaces(shift) + ShiftedRest(Items(items, indent), shift) == Items(items, indent + shift)
    decreases items
  {
    ShiftedPretty(items[0], indent, shift);
    if |items| > 1 {
      assert forall i | 0 <= i < |items| - 1 :: items[1..][i] == items[i + 1];
      ShiftedItems(items[1..], indent, shift);
    }
    hide ShiftedRest, Spaces, Pretty;
    var first := Spaces(indent) + Pretty(items[0], indent);
    ShiftedAppend(Spaces(indent), Pretty(items[0], indent), shift);
    ShiftedOneLine(Spaces(indent), shift);
    SpacesAdd(shift, indent);
    Assoc(Spaces(shift), Spaces(indent), Pretty(items[0], indent + shift));
    if |items| > 1 { ShiftedNext(first, Items(items[1..], indent), shift); }
  }

  /** A part, a comma, and the next part on a line of its own. */
  lemma ShiftedNext(first: string, rest: string, shift: nat)
    ensures Spaces(shift) + ShiftedRest(first + (",\n" + rest), shift) == (Spaces(shift) + ShiftedRest(first, shift)) + (",\n" + (Spaces(shift) + ShiftedRest(rest, shift)))
  {
    hide ShiftedRest, Spaces;
    assert ",\n" + rest == "," + ("\n" + rest);
    ShiftedAppend(first, ",\n" + rest, shift);
    ShiftedAppend(",", "\n" + rest, shift);
    ShiftedOneLine(",", shift);
    ShiftedBreak(rest, shift);
    var shifted := Spaces(shift) + ShiftedRest(rest, shift);
    assert "," + ("\n" + shifted) == ",\n" + shifted;
    Assoc(Spaces(shift), ShiftedRest(first, shift), ",\n" + shifted);
  }

  lemma {:induction false} ShiftedFields(fields: seq<Field>, indent: nat, shift: nat)
    requires fields != [] && forall i | 0 <= i < |fields| :: OneLine(fields[i].key) && OneLineLeaves(fields[i].value)
    ensures Spaces(shift) + ShiftedRest(Fields(fields, indent), shift) == Fields(fields, indent + shift)
    decreases fields
  {
    var f := fields[0];
    ShiftedPretty(f.value, indent, shift);
    if |fields| > 1 {
      assert forall i | 0 <= i < |fields| - 1 :: fields[1..][i] == fields[i + 1];
      ShiftedFields(fields[1..], indent, shift);
    }
    hide ShiftedRest, Spaces, Pretty;
    var first := Spaces(indent) + (f.key + (": " + Pretty(f.value, indent)));
    FirstField(f.key, Pretty(f.value, indent), Pretty(f.value, indent + shift), indent, shift);
    if |fields| > 1 { ShiftedNext(first, Fields(fields[1..], indent), shift); }
  }

  lemma FirstField(key: string, value: string, shifted: string, indent: nat, shift: nat)
    requires OneLine(key) && ShiftedRest(value, shift) == shifted
    ensures Spaces(shift) + ShiftedRest(Spaces(indent) + (key + (": " + value)), shift) == Spaces(indent + shift) + (key + (": " + shifted))
  {
    hide ShiftedRest, Spaces;
    ShiftedAppend(Spaces(indent), key + (": " + value), shift);
    ShiftedAppend(key, ": " + value, shift);
    ShiftedAppend(": ", value, shift);
    ShiftedOneLine(Spaces(indent), shift);
    ShiftedOneLine(key, shift);
    ShiftedOneLine(": ", shift);
    SpacesAdd(shift, indent);
    Assoc(Spaces(shift), Spaces(indent), key + (": " + shifted));
  }
}
