/** generateStandaloneHTML: the self-contained page built from the form
    title, the description and the fields. Every user-supplied string
    (title, description, label, placeholder, option text) goes through
    escapeHtml; the field id (an attribute value) and the type name (only
    ever one of the four input types) are written as they are. */
module Export {
  import opened Fields
  import opened Escape

  const Untitled := "Untitled Form"

  const PageOpen := "<!doctype html><html><head><meta charset=\"utf-8\"><meta name=\"viewport\" content=\"width=device-width,initial-scale=1\"><title>"
  const PageStyle := "</title><style>body{font-family:Inter, Arial, sans-serif;padding:24px;background:#f6f9fc;color:#0b1220}form input, form textarea, form select{display:block;padding:8px;border:1px solid #d8e1ea;border-radius:8px;width:100%;max-width:480px}button{background:#2563eb;color:#fff;padding:8px 12px;border-radius:8px;border:none;margin-top:8px}</style></head><body>"
  const PageClose := "</body></html>"
  const BlockOpen := "<div style=\"margin-bottom:12px\">"
  const BlockClose := "</div>"
  const LabelOpen := "<label style=\"display:block;margin-bottom:6px;font-weight:600\">"
  const SelectOpen := "<select><option value=\"\">-- Select --</option>"
  const FormClose := "<button type=\"submit\">Submit</button></form>"
  const CheckedBox := "<input type=\"checkbox\" checked />"
  const UncheckedBox := "<input type=\"checkbox\"  />"

  /** The four types rendered as a single-line input. */
  predicate IsSingleLine(kind: string)
  {
    kind == "text" || kind == "email" || kind == "number" || kind == "date"
  }

  /** The concatenation of `render(x)` over `xs`, in order (the `forEach`
      loops that append to the page). */
  function ConcatMap<T>(xs: seq<T>, render: T -> string): string
  {
    if xs == [] then "" else ConcatMap(xs[..|xs| - 1], render) + render(xs[|xs| - 1])
  }

  lemma {:induction false} ConcatMapAppend<T>(a: seq<T>, b: seq<T>, render: T -> string)
    ensures ConcatMap(a + b, render) == ConcatMap(a, render) + ConcatMap(b, render)
    decreases |b|
  {
    if b == [] {
      assert a + b == a;
    } else {
      var b' := b[..|b| - 1];
      assert (a + b)[..|a + b| - 1] == a + b';
      ConcatMapAppend(a, b', render);
    }
  }

  /** The piece for xs[k] sits between the pieces of the elements before
      it and those of the elements after it. */
  lemma {:induction false} ConcatMapAt<T>(xs: seq<T>, k: nat, render: T -> string)
    requires k < |xs|
    ensures ConcatMap(xs, render)
            == ConcatMap(xs[..k], render) + render(xs[k]) + ConcatMap(xs[k + 1..], render)
  {
    assert xs == xs[..k] + ([xs[k]] + xs[k + 1..]);
    ConcatMapAppend(xs[..k], [xs[k]] + xs[k + 1..], render);
    ConcatMapAppend([xs[k]], xs[k + 1..], render);
    assert [xs[k]][..0] == [];
  }

  /** The escaped title, "Untitled Form" when the title is empty. */
  function MetaTitle(title: string): (r: string)
    ensures NoDelimiters(r) && r != ""
  {
    EscapeHtml(if title == "" then Untitled else title)
  }

  /** The heading and, when the escaped description is not empty, the
      description paragraph. */
  function Heading(title: string, description: string): string
  {
    var metaDesc := EscapeHtml(description);
    "<h2>" + MetaTitle(title) + "</h2>" + (if metaDesc != "" then "<p>" + metaDesc + "</p>" else "")
  }

  function LabelTag(f: Field): string
  {
    LabelOpen + EscapeHtml(f.labelText) + (if f.required then " *" else "") + "</label>"
  }

  function RadioItem(id: Id, opt: string): string
  {
    "<div><label><input type=\"radio\" name=\"" + id + "\" /> " + EscapeHtml(opt) + "</label></div>"
  }

  function RadioItems(id: Id, opts: seq<string>): string
  {
    ConcatMap(opts, (o: string) => RadioItem(id, o))
  }

  function OptionItem(opt: string): string
  {
    "<option>" + EscapeHtml(opt) + "</option>"
  }

  function OptionItems(opts: seq<string>): string
  {
    ConcatMap(opts, OptionItem)
  }

  /** The control of one field, chosen by its type; a type outside the
      eight gets no control. (The source writes the single-line input's
      type as `text` when the type is text and as the type otherwise, which
      is the type in all four cases.) */
  function Control(f: Field): string
  {
    if IsSingleLine(f.kind) then
      "<input type=\"" + f.kind + "\" placeholder=\"" + EscapeHtml(f.placeholder) + "\" />"
    else if f.kind == "textarea" then
      "<textarea placeholder=\"" + EscapeHtml(f.placeholder) + "\"></textarea>"
    else if f.kind == "checkbox" then
      "<input type=\"checkbox\" " + (if f.checked == Some(true) then "checked" else "") + " />"
    else if f.kind == "radio" then
      RadioItems(f.id, f.options)
    else if f.kind == "select" then
      SelectOpen + OptionItems(f.options) + "</select>"
    else
      ""
  }

  function Block(f: Field): string
  {
    BlockOpen + LabelTag(f) + Control(f) + BlockClose
  }

  function Blocks(fields: seq<Field>): string
  {
    ConcatMap(fields, Block)
  }

  /** The `inner` markup: heading, then the form with one block per field
      and the submit button. */
  function Inner(title: string, description: string, fields: seq<Field>): string
  {
    Heading(title, description) + "<form>" + Blocks(fields) + FormClose
  }

  /** The document around the page title and the `inner` markup. */
  function Page(metaTitle: string, inner: string): string
  {
    PageOpen + metaTitle + PageStyle + inner + PageClose
  }

  function StandalonePage(title: string, description: string, fields: seq<Field>): string
  {
    Page(MetaTitle(title), Inner(title, description, fields))
  }

  lemma AppendAssoc(a: string, b: string, c: string)
    ensures a + (b + c) == a + b + c
  {
  }

  lemma RadioItemsSnoc(id: Id, opts: seq<string>, j: nat)
    requires j < |opts|
    ensures RadioItems(id, opts[..j + 1]) == RadioItems(id, opts[..j]) + RadioItem(id, opts[j])
  {
    assert opts[..j + 1][..j] == opts[..j];
  }

  lemma OptionItemsSnoc(opts: seq<string>, j: nat)
    requires j < |opts|
    ensures OptionItems(opts[..j + 1]) == OptionItems(opts[..j]) + OptionItem(opts[j])
  {
    assert opts[..j + 1][..j] == opts[..j];
  }

  lemma BlocksSnoc(fields: seq<Field>, i: nat)
    requires i < |fields|
    ensures Blocks(fields[..i + 1]) == Blocks(fields[..i]) + Block(fields[i])
  {
    assert fields[..i + 1][..i] == fields[..i];
  }

  /** The radio loop: one item per option, appended in order. */
  method AppendRadioItems(inner: string, id: Id, opts: seq<string>) returns (out: string)
    ensures out == inner + RadioItems(id, opts)
  {
    out := inner;
    var j := 0;
    while j < |opts|
      invariant 0 <= j <= |opts|
      invariant out == inner + RadioItems(id, opts[..j])
    {
      RadioItemsSnoc(id, opts, j);
      AppendAssoc(inner, RadioItems(id, opts[..j]), RadioItem(id, opts[j]));
      out := out + RadioItem(id, opts[j]);
      j := j + 1;
    }
    assert opts[..j] == opts;
  }

  /** The select loop: one option element per option, appended in order. */
  method AppendOptionItems(inner: string, opts: seq<string>) returns (out: string)
    ensures out == inner + OptionItems(opts)
  {
    out := inner;
    var j := 0;
    while j < |opts|
      invariant 0 <= j <= |opts|
      invariant out == inner + OptionItems(opts[..j])
    {
      OptionItemsSnoc(opts, j);
      AppendAssoc(inner, OptionItems(opts[..j]), OptionItem(opts[j]));
      out := out + OptionItem(opts[j]);
      j := j + 1;
    }
    assert opts[..j] == opts;
  }

  /** The type dispatch of one field's control. */
  method AppendControl(inner: string, f: Field) returns (out: string)
    ensures out == inner + Control(f)
  {
    out := inner;
    if IsSingleLine(f.kind) {
      out := out + ("<input type=\"" + f.kind + "\" placeholder=\"" + EscapeHtml(f.placeholder) + "\" />");
    } else if f.kind == "textarea" {
      out := out + ("<textarea placeholder=\"" + EscapeHtml(f.placeholder) + "\"></textarea>");
    } else if f.kind == "checkbox" {
      out := out + ("<input type=\"checkbox\" " + (if f.checked == Some(true) then "checked" else "") + " />");
    } else if f.kind == "radio" {
      out := AppendRadioItems(out, f.id, f.options);
    } else if f.kind == "select" {
      out := out + SelectOpen;
      out := AppendOptionItems(out, f.options);
      AppendAssoc(inner, SelectOpen, OptionItems(f.options));
      out := out + "</select>";
      AppendAssoc(inner, SelectOpen + OptionItems(f.options), "</select>");
    }
  }

  /** The fields loop: one block per field, appended in order. */
  method AppendBlocks(inner: string, fields: seq<Field>) returns (out: string)
    ensures out == inner + Blocks(fields)
  {
    out := inner;
    var i := 0;
    while i < |fields|
      invariant 0 <= i <= |fields|
      invariant out == inner + Blocks(fields[..i])
    {
      var f := fields[i];
      ghost var before := out;
      out := out + BlockOpen;
      out := out + LabelTag(f);
      out := AppendControl(out, f);
      out := out + BlockClose;
      AppendAssoc(before, BlockOpen, LabelTag(f));
      AppendAssoc(before, BlockOpen + LabelTag(f), Control(f));
      AppendAssoc(before, BlockOpen + LabelTag(f) + Control(f), BlockClose);
      BlocksSnoc(fields, i);
      AppendAssoc(inner, Blocks(fields[..i]), Block(f));
      i := i + 1;
    }
    assert fields[..i] == fields;
  }

  /** generateStandaloneHTML: the heading, then the form with the blocks of
      the fields, framed by the page. */
  method GenerateStandaloneHtml(title: string, description: string, fields: seq<Field>)
    returns (html: string)
    ensures html == StandalonePage(title, description, fields)
  {
    var metaTitle := EscapeHtml(if title == "" then Untitled else title);
    var metaDesc := EscapeHtml(description);
    var inner := "<h2>" + metaTitle + "</h2>" + (if metaDesc != "" then "<p>" + metaDesc + "</p>" else "");
    inner := inner + "<form>";
    inner := AppendBlocks(inner, fields);
    inner := inner + FormClose;
    assert inner == Inner(title, description, fields);
    html := Page(metaTitle, inner);
  }

  /** The page title and heading show the form title, decoding back to
      it, or "Untitled Form" when the title is empty. */
  lemma {:induction false} TitleShown(title: string)
    ensures title == "" ==> MetaTitle(title) == Untitled
    ensures title != "" ==> Unescape(MetaTitle(title)) == title
  {
    if title == "" {
      EscapePlain(Untitled);
    } else {
      UnescapeEscape(title);
    }
  }

  /** The description paragraph is there exactly when the description is
      not empty, and it decodes back to the description. */
  lemma {:induction false} DescriptionShown(title: string, description: string)
    ensures description == "" ==> Heading(title, description) == "<h2>" + MetaTitle(title) + "</h2>"
    ensures description != "" ==>
              Heading(title, description)
              == "<h2>" + MetaTitle(title) + "</h2><p>" + EscapeHtml(description) + "</p>"
    ensures Unescape(EscapeHtml(description)) == description
  {
    EscapeEmpty(description);
    UnescapeEscape(description);
  }

  /** One block per field, in sequence order: the block of field k comes
      after the blocks of the fields before it and before those after it. */
  lemma {:induction false} BlocksInOrder(fields: seq<Field>, k: nat)
    requires k < |fields|
    ensures Blocks(fields) == Blocks(fields[..k]) + Block(fields[k]) + Blocks(fields[k + 1..])
  {
    ConcatMapAt(fields, k, Block);
  }

  /** Adding a field at the end adds its block at the end of the form. */
  lemma {:induction false} BlocksAppend(fields: seq<Field>, f: Field)
    ensures Blocks(fields + [f]) == Blocks(fields) + Block(f)
  {
    ConcatMapAppend(fields, [f], Block);
    assert [f][..0] == [];
  }

  /** The label shows the escaped label followed by " *" exactly when the
      field is required: the label element's text decodes to the label, with
      " *" after it exactly for a required field. */
  lemma {:induction false} LabelShown(f: Field)
    ensures var text := f.labelText + (if f.required then " *" else "");
            LabelTag(f) == LabelOpen + EscapeHtml(text) + "</label>"
            && Unescape(EscapeHtml(text)) == text
  {
    var marker := if f.required then " *" else "";
    EscapePlain(marker);
    EscapeAppend(f.labelText, marker);
    AppendAssoc(LabelOpen, EscapeHtml(f.labelText), marker);
    UnescapeEscape(f.labelText + marker);
  }

  predicate EndsWith(s: string, suffix: string)
  {
    |suffix| <= |s| && s[|s| - |suffix|..] == suffix
  }

  /** Where the page ends, for any page frame and form body. */
  lemma {:induction false} FrameEndsWith(open: string, m: string, style: string, body: string,
                                         formClose: string, close: string)
    ensures EndsWith(open + m + style + (body + formClose) + close, formClose + close)
  {
    var x := open + m + style;
    AppendAssoc(x, body, formClose);
    AppendAssoc(x + body, formClose, close);
    assert x + body + (formClose + close) == (x + body) + (formClose + close);
  }

  /** The page ends with the submit button, the end of the form and the
      end of the document. */
  lemma {:induction false} SubmitButtonLast(title: string, description: string, fields: seq<Field>)
    ensures EndsWith(StandalonePage(title, description, fields), FormClose + PageClose)
  {
    FrameEndsWith(PageOpen, MetaTitle(title), PageStyle,
                  Heading(title, description) + "<form>" + Blocks(fields), FormClose, PageClose);
  }

  /** A checkbox is rendered checked exactly when the field is checked. */
  lemma {:induction false} CheckboxCheckedIff(f: Field)
    requires f.kind == "checkbox"
    ensures Control(f) == CheckedBox <==> f.checked == Some(true)
    ensures Control(f) == CheckedBox || Control(f) == UncheckedBox
  {
    if f.checked != Some(true) {
      assert |Control(f)| == 26;
    }
  }

  /** A select lists the "-- Select --" entry, then the options in order,
      each escaped: option k sits between the options before it and those
      after it. */
  lemma {:induction false} SelectListsOptions(f: Field, k: nat)
    requires f.kind == "select" && k < |f.options|
    ensures Control(f) == SelectOpen + (OptionItems(f.options[..k]) + OptionItem(f.options[k])
                                        + OptionItems(f.options[k + 1..])) + "</select>"
  {
    ConcatMapAt(f.options, k, OptionItem);
  }

  /** A select is the "-- Select --" entry, then one option element per
      option, then the closing tag; with no options it is the leading entry
      alone. */
  lemma {:induction false} SelectControl(f: Field)
    requires f.kind == "select"
    ensures Control(f) == SelectOpen + OptionItems(f.options) + "</select>"
    ensures f.options == [] ==> Control(f) == SelectOpen + "</select>"
  {
    assert !IsSingleLine(f.kind);
    if f.options == [] {
      assert OptionItems(f.options) == "";
    }
  }

  /** The characters of `s` that delimit tags and attribute values, in order. */
  function Delimiters(s: string): string
  {
    if s == [] then []
    else (if IsDelimiter(s[0]) then [s[0]] else []) + Delimiters(s[1..])
  }

  lemma {:induction false} DelimitersAppend(a: string, b: string)
    ensures Delimiters(a + b) == Delimiters(a) + Delimiters(b)
    decreases |a|
  {
    if a == [] {
      assert a + b == b;
    } else {
      var head := if IsDelimiter(a[0]) then [a[0]] else [];
      assert (a + b)[0] == a[0];
      assert (a + b)[1..] == a[1..] + b;
      DelimitersAppend(a[1..], b);
      AppendAssoc(head, Delimiters(a[1..]), Delimiters(b));
    }
  }

  lemma {:induction false} DelimitersOfEscaped(s: string)
    ensures Delimiters(EscapeHtml(s)) == []
  {
    NoDelimitersNone(EscapeHtml(s));
  }

  lemma {:induction false} NoDelimitersNone(s: string)
    requires NoDelimiters(s)
    ensures Delimiters(s) == []
    decreases |s|
  {
    if s != [] {
      NoDelimitersNone(s[1..]);
    }
  }

  /** Two fields with the same id, type, required flag, checked state and
      number of options, whatever their label, placeholder and option text. */
  predicate SameShape(f: Field, g: Field)
  {
    f.id == g.id && f.kind == g.kind && f.required == g.required
    && f.checked == g.checked && |f.options| == |g.options|
  }

  lemma {:induction false} DelimitersConcatMap<T>(xs: seq<T>, ys: seq<T>, render: T -> string)
    requires |xs| == |ys|
    requires forall k :: 0 <= k < |xs| ==> Delimiters(render(xs[k])) == Delimiters(render(ys[k]))
    ensures Delimiters(ConcatMap(xs, render)) == Delimiters(ConcatMap(ys, render))
    decreases |xs|
  {
    if xs != [] {
      var n := |xs| - 1;
      DelimitersConcatMap(xs[..n], ys[..n], render);
      DelimitersAppend(ConcatMap(xs[..n], render), render(xs[n]));
      DelimitersAppend(ConcatMap(ys[..n], render), render(ys[n]));
    }
  }

  /** Replacing the middle of `p + a + q` by text with the same delimiters
      keeps the delimiters of the whole. */
  lemma {:induction false} Frame1(p: string, a1: string, a2: string, q: string)
    requires Delimiters(a1) == Delimiters(a2)
    ensures Delimiters(p + a1 + q) == Delimiters(p + a2 + q)
  {
    DelimitersAppend(p, a1);
    DelimitersAppend(p + a1, q);
    DelimitersAppend(p, a2);
    DelimitersAppend(p + a2, q);
  }

  /** The same for two adjacent middle pieces. */
  lemma {:induction false} Frame2(p: string, a1: string, a2: string, b1: string, b2: string, q: string)
    requires Delimiters(a1) == Delimiters(a2) && Delimiters(b1) == Delimiters(b2)
    ensures Delimiters(p + a1 + b1 + q) == Delimiters(p + a2 + b2 + q)
  {
    DelimitersAppend(p, a1);
    DelimitersAppend(p + a1, b1);
    DelimitersAppend(p + a1 + b1, q);
    DelimitersAppend(p, a2);
    DelimitersAppend(p + a2, b2);
    DelimitersAppend(p + a2 + b2, q);
  }

  /** The same for `p + a + m + b + q` with `a` and `b` replaced. */
  lemma {:induction false} Frame3(p: string, a1: string, a2: string, m: string,
                                  b1: string, b2: string, q: string)
    requires Delimiters(a1) == Delimiters(a2) && Delimiters(b1) == Delimiters(b2)
    ensures Delimiters(p + a1 + m + b1 + q) == Delimiters(p + a2 + m + b2 + q)
  {
    Frame1(p, a1, a2, m);
    DelimitersAppend(p + a1 + m, b1);
    DelimitersAppend(p + a1 + m + b1, q);
    DelimitersAppend(p + a2 + m, b2);
    DelimitersAppend(p + a2 + m + b2, q);
  }

  /** The same for `a + m + b + q` with `a` and `b` replaced. */
  lemma {:induction false} FrameHead(a1: string, a2: string, m: string, b1: string, b2: string, q: string)
    requires Delimiters(a1) == Delimiters(a2) && Delimiters(b1) == Delimiters(b2)
    ensures Delimiters(a1 + m + b1 + q) == Delimiters(a2 + m + b2 + q)
  {
    DelimitersAppend(a1, m);
    DelimitersAppend(a1 + m, b1);
    DelimitersAppend(a1 + m + b1, q);
    DelimitersAppend(a2, m);
    DelimitersAppend(a2 + m, b2);
    DelimitersAppend(a2 + m + b2, q);
  }

  lemma {:induction false} EscapedAlike(a: string, b: string)
    ensures Delimiters(EscapeHtml(a)) == Delimiters(EscapeHtml(b))
  {
    DelimitersOfEscaped(a);
    DelimitersOfEscaped(b);
  }

  lemma MetaTitleAlike(t1: string, t2: string)
    ensures Delimiters(MetaTitle(t1)) == Delimiters(MetaTitle(t2))
  {
    EscapedAlike(if t1 == "" then Untitled else t1, if t2 == "" then Untitled else t2);
  }

  lemma {:induction false} DelimitersOfBlock(f: Field, g: Field)
    requires SameShape(f, g)
    ensures Delimiters(Block(f)) == Delimiters(Block(g))
  {
    EscapedAlike(f.labelText, g.labelText);
    var marker := if f.required then " *" else "";
    Frame2(LabelOpen, EscapeHtml(f.labelText), EscapeHtml(g.labelText), marker, marker, "</label>");
    DelimitersOfControl(f, g);
    Frame2(BlockOpen, LabelTag(f), LabelTag(g), Control(f), Control(g), BlockClose);
  }

  lemma {:induction false} DelimitersOfControl(f: Field, g: Field)
    requires SameShape(f, g)
    ensures Delimiters(Control(f)) == Delimiters(Control(g))
  {
    if IsSingleLine(f.kind) {
      EscapedAlike(f.placeholder, g.placeholder);
      Frame1("<input type=\"" + f.kind + "\" placeholder=\"",
             EscapeHtml(f.placeholder), EscapeHtml(g.placeholder), "\" />");
    } else if f.kind == "textarea" {
      EscapedAlike(f.placeholder, g.placeholder);
      Frame1("<textarea placeholder=\"", EscapeHtml(f.placeholder), EscapeHtml(g.placeholder),
             "\"></textarea>");
    } else if f.kind == "radio" {
      var render := (o: string) => RadioItem(f.id, o);
      forall k | 0 <= k < |f.options|
        ensures Delimiters(render(f.options[k])) == Delimiters(render(g.options[k]))
      {
        DelimitersOfRadioItem(f.id, f.options[k], g.options[k]);
      }
      DelimitersConcatMap(f.options, g.options, render);
    } else if f.kind == "select" {
      forall k | 0 <= k < |f.options|
        ensures Delimiters(OptionItem(f.options[k])) == Delimiters(OptionItem(g.options[k]))
      {
        EscapedAlike(f.options[k], g.options[k]);
        Frame1("<option>", EscapeHtml(f.options[k]), EscapeHtml(g.options[k]), "</option>");
      }
      DelimitersConcatMap(f.options, g.options, OptionItem);
      Frame1(SelectOpen, OptionItems(f.options), OptionItems(g.options), "</select>");
    }
  }

  lemma {:induction false} DelimitersOfRadioItem(id: Id, a: string, b: string)
    ensures Delimiters(RadioItem(id, a)) == Delimiters(RadioItem(id, b))
  {
    EscapedAlike(a, b);
    Frame1("<div><label><input type=\"radio\" name=\"" + id + "\" /> ",
           EscapeHtml(a), EscapeHtml(b), "</label></div>");
  }

  lemma {:induction false} DelimitersOfHeading(t1: string, d1: string, t2: string, d2: string)
    requires (d1 == "") == (d2 == "")
    ensures Delimiters(Heading(t1, d1)) == Delimiters(Heading(t2, d2))
  {
    EscapeEmpty(d1);
    EscapeEmpty(d2);
    MetaTitleAlike(t1, t2);
    Frame1("<h2>", MetaTitle(t1), MetaTitle(t2), "</h2>");
    var tail1 := if EscapeHtml(d1) != "" then "<p>" + EscapeHtml(d1) + "</p>" else "";
    var tail2 := if EscapeHtml(d2) != "" then "<p>" + EscapeHtml(d2) + "</p>" else "";
    if d1 != "" {
      EscapedAlike(d1, d2);
      Frame1("<p>", EscapeHtml(d1), EscapeHtml(d2), "</p>");
    }
    DelimitersAppend("<h2>" + MetaTitle(t1) + "</h2>", tail1);
    DelimitersAppend("<h2>" + MetaTitle(t2) + "</h2>", tail2);
  }

  /** No user text can change the markup structure: two pages whose fields
      have the same shapes, and whose descriptions are both empty or both
      not, have the same tag and attribute delimiters in the same order,
      whatever the title, description, labels, placeholders and option
      texts hold. */
  lemma {:induction false} MarkupIndependentOfText(t1: string, d1: string, fs: seq<Field>,
                                                   t2: string, d2: string, gs: seq<Field>)
    requires |fs| == |gs| && forall k :: 0 <= k < |fs| ==> SameShape(fs[k], gs[k])
    requires (d1 == "") == (d2 == "")
    ensures Delimiters(StandalonePage(t1, d1, fs)) == Delimiters(StandalonePage(t2, d2, gs))
  {
    forall k | 0 <= k < |fs| ensures Delimiters(Block(fs[k])) == Delimiters(Block(gs[k])) {
      DelimitersOfBlock(fs[k], gs[k]);
    }
    DelimitersConcatMap(fs, gs, Block);
    DelimitersOfHeading(t1, d1, t2, d2);
    FrameHead(Heading(t1, d1), Heading(t2, d2), "<form>", Blocks(fs), Blocks(gs), FormClose);
    MetaTitleAlike(t1, t2);
    DelimitersOfPageFrame(MetaTitle(t1), MetaTitle(t2), Inner(t1, d1, fs), Inner(t2, d2, gs));
  }

  lemma {:induction false} DelimitersOfPageFrame(m1: string, m2: string, i1: string, i2: string)
    requires Delimiters(m1) == Delimiters(m2) && Delimiters(i1) == Delimiters(i2)
    ensures Delimiters(Page(m1, i1)) == Delimiters(Page(m2, i2))
  {
    Frame3(PageOpen, m1, m2, PageStyle, i1, i2, PageClose);
  }
}
