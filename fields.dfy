/** The field record of the form builder, the per-type defaults of a new
    field, the options-text parser of the inspector and the single-property
    edits the inspector performs. */
module Fields {
  import opened Text

  datatype Option<T> = None | Some(value: T)

  /** Field ids are opaque strings. */
  type Id = string

  /** One form element. `kind` is the source's `type` property and
      `labelText` its `label` (both names are keywords here); the source
      compares the type as a string, so it stays one.
      `checked` is present only on checkbox fields: the source sets the
      property for checkboxes alone. */
  datatype Field = Field(
    id: Id,
    kind: string,
    labelText: string,
    required: bool,
    placeholder: string,
    options: seq<string>,
    checked: Option<bool>)

  const DefaultOptions: seq<string> := ["Option 1", "Option 2"]

  predicate HasOptions(kind: string)
  {
    kind == "radio" || kind == "select"
  }

  /** toUpperCase on one character, for the ASCII letters. */
  function UpperCase(c: char): (r: char)
    ensures 'a' <= c <= 'z' ==> r as int == c as int - 32
    ensures !('a' <= c <= 'z') ==> r == c
  {
    if 'a' <= c <= 'z' then (c as int - 32) as char else c
  }

  /** `t.charAt(0).toUpperCase() + t.slice(1)`. */
  function Capitalize(t: string): (r: string)
    ensures |r| == |t|
    ensures t != [] ==> r[0] == UpperCase(t[0]) && r[1..] == t[1..]
  {
    if t == [] then [] else [UpperCase(t[0])] + t[1..]
  }

  /** createField: the defaults of a new field of type `kind` with id `id`. */
  function CreateField(id: Id, kind: string): (f: Field)
    ensures f.id == id && f.kind == kind
    ensures f.labelText == Capitalize(kind)
    ensures !f.required && f.placeholder == ""
    ensures f.options == (if HasOptions(kind) then DefaultOptions else [])
    ensures f.checked == (if kind == "checkbox" then Some(false) else None)
    ensures WellFormed(f)
  {
    Field(id, kind, Capitalize(kind), false, "",
          if HasOptions(kind) then DefaultOptions else [],
          if kind == "checkbox" then Some(false) else None)
  }

  /** The type-dependent properties as the program keeps them: `checked`
      is present exactly on checkboxes, and only radio and select fields
      have options. */
  predicate WellFormed(f: Field)
  {
    (f.checked.Some? <==> f.kind == "checkbox") && (!HasOptions(f.kind) ==> f.options == [])
  }

  /** The default labels of the four single-line input types of the field
      library: the type name with its first letter in upper case (CreateField
      labels a new field with Capitalize of its type). */
  lemma InputLabels()
    ensures Capitalize("text") == "Text" && Capitalize("email") == "Email"
    ensures Capitalize("number") == "Number" && Capitalize("date") == "Date"
  {
    assert UpperCase('t') == 'T' && UpperCase('e') == 'E';
    assert UpperCase('n') == 'N' && UpperCase('d') == 'D';
  }

  /** The same for the other four types of the field library. */
  lemma ChoiceLabels()
    ensures Capitalize("textarea") == "Textarea" && Capitalize("checkbox") == "Checkbox"
    ensures Capitalize("radio") == "Radio" && Capitalize("select") == "Select"
  {
    assert UpperCase('t') == 'T' && UpperCase('c') == 'C';
    assert UpperCase('r') == 'R' && UpperCase('s') == 'S';
  }

  /** The options parser: split the text on line feeds, trim every line and
      drop the lines that are then empty, keeping order and duplicates.
      Every option it yields is non-empty, trimmed and a single line, and
      there are no more options than lines. */
  function ParseOptions(text: string): (r: seq<string>)
    ensures forall o :: o in r ==> IsCleanOption(o)
    ensures |r| <= |Split(text, '\n')|
  {
    var lines := Split(text, '\n');
    SplitPiecesClean(text, '\n');
    TrimmedLinesAreClean(lines);
    KeepNonEmpty(TrimAll(lines))
  }

  lemma TrimmedLinesAreClean(lines: seq<string>)
    requires forall l :: l in lines ==> '\n' !in l
    ensures forall o :: o in TrimAll(lines) ==> IsTrimmed(o) && '\n' !in o
  {
    forall o | o in TrimAll(lines) ensures IsTrimmed(o) && '\n' !in o {
      var k :| 0 <= k < |lines| && TrimAll(lines)[k] == o;
      assert lines[k] in lines;
      TrimKeepsOut(lines[k], '\n');
    }
  }

  /** `lines.map(s => s.trim())` */
  function TrimAll(lines: seq<string>): (r: seq<string>)
    ensures |r| == |lines|
    ensures forall k :: 0 <= k < |r| ==> r[k] == Trim(lines[k])
  {
    seq(|lines|, k requires 0 <= k < |lines| => Trim(lines[k]))
  }

  /** `lines.filter(Boolean)` on strings: the non-empty lines, in order. */
  function KeepNonEmpty(lines: seq<string>): (r: seq<string>)
    ensures forall o :: o in r ==> o != "" && o in lines
    ensures forall o :: o in lines && o != "" ==> o in r
    ensures |r| <= |lines|
  {
    if lines == [] then []
    else if lines[0] == "" then KeepNonEmpty(lines[1..])
    else [lines[0]] + KeepNonEmpty(lines[1..])
  }

  lemma {:induction false} KeepNonEmptyAppend(a: seq<string>, b: seq<string>)
    ensures KeepNonEmpty(a + b) == KeepNonEmpty(a) + KeepNonEmpty(b)
    decreases |a|
  {
    if a == [] {
      assert a + b == b;
    } else {
      assert (a + b)[1..] == a[1..] + b;
      KeepNonEmptyAppend(a[1..], b);
    }
  }

  /** Parsing respects line order: the options of two blocks of lines joined
      by a line feed are the options of the first block, then the second's. */
  lemma ParseOptionsAppend(a: string, b: string)
    ensures ParseOptions(a + "\n" + b) == ParseOptions(a) + ParseOptions(b)
  {
    var la, lb := Split(a, '\n'), Split(b, '\n');
    SplitAround(a, '\n', b);
    assert a + "\n" + b == a + ['\n'] + b;
    TrimAllAppend(la, lb);
    KeepNonEmptyAppend(TrimAll(la), TrimAll(lb));
  }

  lemma TrimAllAppend(a: seq<string>, b: seq<string>)
    ensures TrimAll(a + b) == TrimAll(a) + TrimAll(b)
  {
  }

  /** An option as the parser can produce it. */
  predicate IsCleanOption(o: string)
  {
    o != "" && IsTrimmed(o) && '\n' !in o
  }

  lemma {:induction false} KeepNonEmptyOfClean(opts: seq<string>)
    requires forall o :: o in opts ==> o != ""
    ensures KeepNonEmpty(opts) == opts
    decreases |opts|
  {
    if opts != [] {
      assert forall o :: o in opts[1..] ==> o in opts;
      assert opts[0] in opts;
      KeepNonEmptyOfClean(opts[1..]);
      assert opts == [opts[0]] + opts[1..];
    }
  }

  /** Parsing the lines of `lines` joined by line feeds keeps the trimmed
      lines that are not empty. */
  lemma ParseOptionsOfLines(lines: seq<string>)
    requires forall l :: l in lines ==> '\n' !in l
    ensures ParseOptions(Join(lines, '\n')) == KeepNonEmpty(TrimAll(lines))
  {
    if lines == [] {
      ParseNothing();
    } else {
      SplitJoin(lines, '\n');
    }
  }

  /** An empty options box gives no option. */
  lemma ParseNothing()
    ensures ParseOptions("") == []
  {
    assert Split("", '\n') == [""];
    assert TrimAll([""]) == [""];
  }

  /** The inspector shows the options joined by line feeds; parsing that
      text back gives the same options whenever every option is one the
      parser could have produced (the defaults are). */
  lemma ParseOptionsOfJoin(opts: seq<string>)
    requires forall o :: o in opts ==> IsCleanOption(o)
    ensures ParseOptions(Join(opts, '\n')) == opts
  {
    ParseOptionsOfLines(opts);
    TrimAllOfClean(opts);
    KeepNonEmptyOfClean(opts);
  }

  /** Clean options are left as they are by trimming. */
  lemma TrimAllOfClean(opts: seq<string>)
    requires forall o :: o in opts ==> IsCleanOption(o)
    ensures TrimAll(opts) == opts
  {
    forall k | 0 <= k < |opts| ensures Trim(opts[k]) == opts[k] {
      assert opts[k] in opts;
      TrimOfTrimmed(opts[k]);
    }
  }

  /** The worked example: the lines "A", "B", "B", " ", "C" give the options
      "A", "B", "B", "C", stated for any options `a`, `b`, `c` and any
      whitespace-only line `w`: the blank line disappears, the duplicate and
      the order stay. */
  lemma ParseOptionsExample(a: string, b: string, w: string, c: string)
    requires IsCleanOption(a) && IsCleanOption(b) && IsCleanOption(c)
    requires AllWhitespace(w) && '\n' !in w
    ensures ParseOptions(Join([a, b, b, w, c], '\n')) == [a, b, b, c]
  {
    ParseOptionsOfLines([a, b, b, w, c]);
    SingletonsOfFive(a, b, b, w, c);
    KeepTrimmedExample(a, b, w, c);
  }

  lemma KeepTrimmedExample(a: string, b: string, w: string, c: string)
    requires IsCleanOption(a) && IsCleanOption(b) && IsCleanOption(c)
    requires AllWhitespace(w)
    ensures KeepNonEmpty(TrimAll([a] + [b] + [b] + [w] + [c])) == [a, b, b, c]
  {
    KeepTrimmedAppend([a] + [b] + [b] + [w], [c]);
    KeepTrimmedAppend([a] + [b] + [b], [w]);
    KeepTrimmedAppend([a] + [b], [b]);
    KeepTrimmedAppend([a], [b]);
    KeepTrimmedClean(a);
    KeepTrimmedClean(b);
    KeepTrimmedClean(c);
    KeepTrimmedBlank(w);
    SingletonsOfFour(a, b, b, c);
  }

  /** A five-element display is the concatenation of its singletons. */
  lemma SingletonsOfFive<T>(x1: T, x2: T, x3: T, x4: T, x5: T)
    ensures [x1, x2, x3, x4, x5] == [x1] + [x2] + [x3] + [x4] + [x5]
  {
  }

  /** Four singletons and an empty sequence concatenate to a four-element display. */
  lemma SingletonsOfFour<T>(x1: T, x2: T, x3: T, x4: T)
    ensures [x1] + [x2] + [x3] + [] + [x4] == [x1, x2, x3, x4]
  {
  }

  /** Lines are cleaned one by one: cleaning a concatenation cleans each part. */
  lemma KeepTrimmedAppend(p: seq<string>, q: seq<string>)
    ensures KeepNonEmpty(TrimAll(p + q)) == KeepNonEmpty(TrimAll(p)) + KeepNonEmpty(TrimAll(q))
  {
    TrimAllAppend(p, q);
    KeepNonEmptyAppend(TrimAll(p), TrimAll(q));
  }

  lemma KeepTrimmedClean(o: string)
    requires IsCleanOption(o)
    ensures KeepNonEmpty(TrimAll([o])) == [o]
  {
    TrimOfTrimmed(o);
    assert TrimAll([o]) == [o];
    assert [o][1..] == [];
  }

  /** A line of whitespace gives no option. */
  lemma ParseBlank(w: string)
    requires AllWhitespace(w) && '\n' !in w
    ensures ParseOptions(w) == []
  {
    SplitNoSeparator(w, '\n');
    KeepTrimmedBlank(w);
  }

  lemma KeepTrimmedBlank(w: string)
    requires AllWhitespace(w)
    ensures KeepNonEmpty(TrimAll([w])) == []
  {
    TrimOfBlank(w);
    assert TrimAll([w]) == [""];
  }

  /** The properties the inspector edits. */
  datatype Property = LabelProp | PlaceholderProp | RequiredProp | OptionsProp | CheckedProp

  /** One inspector edit: the new value of one property, as the edit handler
      receives it (the options as the raw text of the options box). */
  datatype Patch =
    | SetLabel(s: string)
    | SetPlaceholder(s: string)
    | SetRequired(b: bool)
    | SetOptionsText(s: string)
    | SetChecked(b: bool)

  function Touches(p: Patch): Property
  {
    match p
    case SetLabel(_) => LabelProp
    case SetPlaceholder(_) => PlaceholderProp
    case SetRequired(_) => RequiredProp
    case SetOptionsText(_) => OptionsProp
    case SetChecked(_) => CheckedProp
  }

  /** `f` and `g` agree on id and type and on every edited property except
      possibly `q`. */
  predicate SameExcept(f: Field, g: Field, q: Property)
  {
    f.id == g.id && f.kind == g.kind
    && (q == LabelProp || f.labelText == g.labelText)
    && (q == PlaceholderProp || f.placeholder == g.placeholder)
    && (q == RequiredProp || f.required == g.required)
    && (q == OptionsProp || f.options == g.options)
    && (q == CheckedProp || f.checked == g.checked)
  }

  /** The inspector offers the options box only for radio and select
      fields and the "Checked by default" box only for checkboxes; the
      label, placeholder and required editors are always there. */
  predicate Offered(kind: string, p: Patch)
  {
    match p
    case SetOptionsText(_) => HasOptions(kind)
    case SetChecked(_) => kind == "checkbox"
    case _ => true
  }

  /** The property `p` touches holds the value `p` carries. */
  predicate Holds(g: Field, p: Patch)
  {
    match p
    case SetLabel(v) => g.labelText == v
    case SetPlaceholder(v) => g.placeholder == v
    case SetRequired(v) => g.required == v
    case SetOptionsText(t) => g.options == ParseOptions(t)
    case SetChecked(v) => g.checked == Some(v)
  }

  /** The inspector's edit handlers: each overwrites exactly one property of
      the record and leaves the others as they were. */
  function ApplyPatch(f: Field, p: Patch): (g: Field)
    ensures SameExcept(f, g, Touches(p))
    ensures Holds(g, p)
    ensures WellFormed(f) && Offered(f.kind, p) ==> WellFormed(g)
  {
    match p
    case SetLabel(v) => f.(labelText := v)
    case SetPlaceholder(v) => f.(placeholder := v)
    case SetRequired(v) => f.(required := v)
    case SetOptionsText(t) => f.(options := ParseOptions(t))
    case SetChecked(v) => f.(checked := Some(v))
  }
}
