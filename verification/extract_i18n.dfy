/** The `extract-i18n` management command: the names of every exercise
    category, piece of equipment and repetition unit, written out as
    translation stubs for the Django templates, the React front end and the
    Flutter app. Each output file is modelled as the string the command
    builds; the lemmas describe that string line by line. */
module ExtractI18n {
  import Text
  import Seqs

  /** A character `cleanup_name` turns into an underscore. */
  predicate IsReplaced(c: char)
  {
    c == ' ' || c == '-' || c == '/' || c == '(' || c == ')'
  }

  /** Python's `s.replace(old, new)` with one-character arguments. */
  function Replace(s: string, from: char, to: char): (r: string)
    ensures |r| == |s|
    ensures forall i :: 0 <= i < |s| && s[i] != from ==> r[i] == s[i]
    ensures forall i :: 0 <= i < |s| && s[i] == from ==> r[i] == to
  {
    seq(|s|, i requires 0 <= i < |s| => if s[i] == from then to else s[i])
  }

  /** Reference definition: what becomes of a single character. */
  function CleanChar(c: char): (r: char)
    ensures !IsReplaced(r) && !('A' <= r <= 'Z')
    ensures r == c <==> !IsReplaced(c) && !('A' <= c <= 'Z')
  {
    if IsReplaced(c) then '_' else Text.LowerChar(c)
  }

  /** `cleanup_name`: lower-case the name, then replace spaces, hyphens,
      slashes and parentheses by underscores. The result works character by
      character and is a usable translation key: no upper-case letter and
      none of the replaced characters is left. */
  function CleanupName(text: string): (r: string)
    ensures |r| == |text|
    ensures forall i :: 0 <= i < |text| ==> r[i] == CleanChar(text[i])
    ensures forall i :: 0 <= i < |r| ==> !IsReplaced(r[i]) && !('A' <= r[i] <= 'Z')
  {
    Replace(Replace(Replace(Replace(Replace(Text.Lower(text), ' ', '_'), '-', '_'), '/', '_'), '(', '_'), ')', '_')
  }

  /** Cleaning a cleaned name changes nothing. */
  lemma {:induction false} CleanupNameIdempotent(text: string)
    ensures CleanupName(CleanupName(text)) == CleanupName(text)
  {
    var once := CleanupName(text);
    forall i | 0 <= i < |once|
      ensures CleanupName(once)[i] == once[i]
    {
      assert once[i] == CleanChar(text[i]);
    }
  }

  /** The key has a line break exactly where the name has one. */
  lemma {:induction false} CleanupNameNewline(text: string)
    ensures '\n' in CleanupName(text) <==> '\n' in text
  {
    var r := CleanupName(text);
    if '\n' in r {
      var i :| 0 <= i < |r| && r[i] == '\n';
      assert CleanChar(text[i]) == '\n';
    }
    if '\n' in text {
      var i :| 0 <= i < |text| && text[i] == '\n';
      assert r[i] == '\n';
    }
  }

  /** Different names can share a key: a space and a hyphen both become an
      underscore, and so does an underscore already in the name. */
  lemma CleanupNameCollides()
    ensures CleanupName("Pull up") == CleanupName("Pull-up") == CleanupName("pull_up")
  {
    assert CleanupName("Pull up") == "pull_up";
    assert CleanupName("Pull-up") == "pull_up";
    assert CleanupName("pull_up") == "pull_up";
  }

  /** The items whose names are written out, in this order: the categories,
      then the equipment, then the repetition units. Muscles are not among
      them. */
  function Items(categories: seq<string>, equipment: seq<string>, units: seq<string>): (r: seq<string>)
    ensures |r| == |categories| + |equipment| + |units|
    ensures forall k :: 0 <= k < |categories| ==> r[k] == categories[k]
    ensures forall k :: 0 <= k < |equipment| ==> r[|categories| + k] == equipment[k]
    ensures forall k :: 0 <= k < |units| ==> r[|categories| + |equipment| + k] == units[k]
  {
    categories + equipment + units
  }

  /** No name spans several lines. */
  predicate SingleLines(items: seq<string>)
  {
    forall k :: 0 <= k < |items| ==> '\n' !in items[k]
  }

  /** A run of spaces, the indentation the triple-quoted strings carry. */
  function Spaces(n: nat): (r: string)
    ensures |r| == n
    ensures forall i :: 0 <= i < n ==> r[i] == ' '
  {
    seq(n, _ => ' ')
  }

  /** `for i in data: out += entry(i)` starting from the empty string. */
  function Accumulate(items: seq<string>, entry: string -> string): string
    decreases |items|
  {
    if items == [] then []
    else Accumulate(items[..|items| - 1], entry) + entry(items[|items| - 1])
  }

  /** The lines of `Accumulate(items, entry)` when each entry is the text of
      the lines `block(item)`. */
  function Chain(items: seq<string>, block: string -> seq<string>): (r: seq<string>)
    ensures |r| >= 1
    decreases |items|
  {
    if items == [] then [[]]
    else Text.Glue(Chain(items[..|items| - 1], block), block(items[|items| - 1]))
  }

  /** Helper: the accumulated text is the join of the chained lines. */
  lemma {:induction false} AccumulateLines(items: seq<string>, entry: string -> string, block: string -> seq<string>)
    requires forall i :: |block(i)| >= 1 && entry(i) == Text.Join(block(i), '\n')
    ensures Accumulate(items, entry) == Text.Join(Chain(items, block), '\n')
    decreases |items|
  {
    if items != [] {
      var init, x := items[..|items| - 1], items[|items| - 1];
      AccumulateLines(init, entry, block);
      Text.JoinConcat(Chain(init, block), block(x), '\n');
    }
  }

  /** Helper: entries that are one line each chain into those lines followed
      by an empty last line. */
  lemma {:induction false} ChainOfLines(items: seq<string>, block: string -> seq<string>, line: string -> string)
    requires forall i :: block(i) == [line(i), []]
    ensures Chain(items, block) == Seqs.Map(items, line) + [[]]
    decreases |items|
  {
    if items != [] {
      var init, x := items[..|items| - 1], items[|items| - 1];
      ChainOfLines(init, block, line);
      var m := Seqs.Map(init, line);
      assert Chain(items, block) == Text.Glue(m + [[]], [line(x), []]);
      Text.GlueAfterBreak(m, [line(x), []]);
      assert Seqs.Map(items, line) == m + [line(x)];
    }
  }

  /** Helper: a line of text followed by a line break is the join of that line
      and an empty one. */
  lemma LineAndBreak(s: string)
    ensures s + "\n" == Text.Join([s, []], '\n')
  {
    Text.JoinCons(s, [[]], '\n');
  }

  /** Helper: the text of every one-line entry is its line and a break. */
  lemma {:induction false} OneLineEntries(entry: string -> string, block: string -> seq<string>, line: string -> string)
    requires forall i :: entry(i) == line(i) + "\n" && block(i) == [line(i), []]
    ensures forall i :: |block(i)| >= 1 && entry(i) == Text.Join(block(i), '\n')
  {
    forall i
      ensures |block(i)| >= 1 && entry(i) == Text.Join(block(i), '\n')
    {
      LineAndBreak(line(i));
    }
  }

  /** Helper: the items' keys are single lines too. */
  lemma {:induction false} KeysSingleLines(items: seq<string>)
    requires SingleLines(items)
    ensures forall k :: 0 <= k < |items| ==> '\n' !in CleanupName(items[k])
  {
    forall k | 0 <= k < |items|
      ensures '\n' !in CleanupName(items[k])
    {
      CleanupNameNewline(items[k]);
    }
  }

  // ---- wger/i18n.tpl ----------------------------------------------------

  const TplHeader: string := "{% load i18n %}"

  /** One `translate` tag. */
  function TplLine(item: string): string
  {
    "{% translate \"" + item + "\" %}"
  }

  function TplEntry(item: string): string
  {
    TplLine(item) + "\n"
  }

  function TplBlock(item: string): seq<string>
  {
    [TplLine(item), []]
  }

  /** The Django template: the `load` tag, then one `translate` tag per item. */
  function TplText(items: seq<string>): string
  {
    TplHeader + "\n" + Accumulate(items, TplEntry)
  }

  /** Helper: a header line followed by one-line entries. */
  lemma {:induction false} HeaderAndLines(header: string, items: seq<string>, entry: string -> string,
                                          block: string -> seq<string>, line: string -> string)
    requires forall i :: entry(i) == line(i) + "\n" && block(i) == [line(i), []]
    ensures header + "\n" + Accumulate(items, entry) == Text.Join([header] + Seqs.Map(items, line) + [[]], '\n')
  {
    OneLineEntries(entry, block, line);
    AccumulateLines(items, entry, block);
    ChainOfLines(items, block, line);
    var m := Seqs.Map(items, line);
    LineAndBreak(header);
    assert Accumulate(items, entry) == Text.Join(m + [[]], '\n');
    assert header + "\n" == Text.Join([header] + [[]], '\n');
    Text.JoinConcat([header] + [[]], m + [[]], '\n');
    Text.GlueAfterBreak([header], m + [[]]);
    assert [header] + (m + [[]]) == [header] + m + [[]];
  }

  /** The template has the `load` line, one `translate` line per item in
      order, and ends with a line break. */
  lemma {:induction false} TplLines(items: seq<string>)
    requires SingleLines(items)
    ensures Text.Split(TplText(items), '\n') == [TplHeader] + Seqs.Map(items, TplLine) + [[]]
  {
    HeaderAndLines(TplHeader, items, TplEntry, TplBlock, TplLine);
    Text.SplitJoin([TplHeader] + Seqs.Map(items, TplLine) + [[]], '\n');
  }

  // ---- wger/i18n.tsx ----------------------------------------------------

  const TsxImport: string := Spaces(16) + "import { useTranslation }" + " from \"react-i18next\";"
  const TsxComponent: string := Spaces(16) + "export const DummyComponent = () => {"
  const TsxUse: string := Spaces(16) + "const [t, i18n] = useTranslation();"
  const TsxReturn: string := Spaces(16) + "return (<p></p>);"
  const TsxClose: string := Spaces(16) + "};"

  /** The text before the calls; it does not end in a line break. */
  const TsxHead: string := "\n" + TsxImport + "\n\n" + TsxComponent + "\n" + TsxUse

  /** The text after the calls. */
  const TsxFoot: string := "\n" + TsxReturn + "\n" + TsxClose

  /** One call of the translation hook, keyed by the cleaned name. */
  function TsxCall(item: string): string
  {
    "t(\"exercises." + CleanupName(item) + "\");"
  }

  function TsxEntry(item: string): string
  {
    TsxCall(item) + "\n"
  }

  function TsxBlock(item: string): seq<string>
  {
    [TsxCall(item), []]
  }

  /** The React component: the header ending in the hook, one call per item,
      and the footer returning an empty paragraph. */
  function TsxText(items: seq<string>): string
  {
    TsxHead + Accumulate(items, TsxEntry) + TsxFoot
  }

  /** The lines of the component. The first call shares the line of the hook,
      since the header does not end in a line break, and an empty line
      follows the last call. */
  function TsxLines(items: seq<string>): seq<string>
  {
    var calls := Seqs.Map(items, TsxCall);
    if items == [] then [[], TsxImport, [], TsxComponent, TsxUse, TsxReturn, TsxClose]
    else [[], TsxImport, [], TsxComponent, TsxUse + calls[0]] + calls[1..] + [[], TsxReturn, TsxClose]
  }

  /** Helper: the header's text, for any contents of its lines. */
  lemma HeadShape(a: string, b: string, c: string)
    ensures "\n" + a + "\n\n" + b + "\n" + c == Text.Join([[], a, [], b, c], '\n')
  {
    Text.JoinFour(a, [], b, c, '\n');
    Text.JoinCons([], [a, [], b, c], '\n');
    assert [[], a, [], b, c] == [[]] + [a, [], b, c];
  }

  /** Helper: the lines of header, calls and footer once glued. */
  lemma {:induction false} ComponentGlue(head4: seq<string>, c: string, calls: seq<string>, d: string, e: string)
    ensures Text.Glue(Text.Glue(head4 + [c], calls + [[]]), [[], d, e])
         == if calls == [] then head4 + [c, d, e] else head4 + [c + calls[0]] + calls[1..] + [[], d, e]
  {
    var g := Text.Glue(head4 + [c], calls + [[]]);
    if calls == [] {
      assert calls + [[]] == [[]] + [];
      Text.GlueLast(head4, c, [], []);
      assert c + [] == c;
      assert g == head4 + [c];
    } else {
      assert calls + [[]] == [calls[0]] + (calls[1..] + [[]]);
      Text.GlueLast(head4, c, calls[0], calls[1..] + [[]]);
      assert g == head4 + [c + calls[0]] + calls[1..] + [[]];
    }
    assert [[], d, e] == [[]] + [d, e];
    Text.GlueBeforeBreak(g, [d, e]);
  }

  /** Helper: the shape of the component, for any contents of its lines. */
  lemma {:induction false} ComponentShape(a: string, b: string, c: string, d: string, e: string,
                                          calls: seq<string>, body: string)
    requires body == Text.Join(calls + [[]], '\n')
    ensures ("\n" + a + "\n\n" + b + "\n" + c) + body + ("\n" + d + "\n" + e)
         == Text.Join(if calls == [] then [[], a, [], b, c, d, e]
                      else [[], a, [], b, c + calls[0]] + calls[1..] + [[], d, e], '\n')
  {
    var head4: seq<string> := [[], a, [], b];
    HeadShape(a, b, c);
    assert head4 + [c] == [[], a, [], b, c];
    Text.JoinThree([], d, e, '\n');
    assert "\n" + d + "\n" + e == Text.Join([[], d, e], '\n');
    Text.JoinConcat(head4 + [c], calls + [[]], '\n');
    var g := Text.Glue(head4 + [c], calls + [[]]);
    Text.JoinConcat(g, [[], d, e], '\n');
    ComponentGlue(head4, c, calls, d, e);
    if calls == [] {
      assert head4 + [c, d, e] == [[], a, [], b, c, d, e];
    } else {
      assert head4 + [c + calls[0]] + calls[1..] + [[], d, e]
          == [[], a, [], b, c + calls[0]] + calls[1..] + [[], d, e];
    }
  }

  /** Helper: the component is the join of `TsxLines`. */
  lemma {:induction false} TsxJoin(items: seq<string>)
    ensures TsxText(items) == Text.Join(TsxLines(items), '\n')
  {
    OneLineEntries(TsxEntry, TsxBlock, TsxCall);
    AccumulateLines(items, TsxEntry, TsxBlock);
    ChainOfLines(items, TsxBlock, TsxCall);
    var calls := Seqs.Map(items, TsxCall);
    var body := Accumulate(items, TsxEntry);
    assert TsxText(items) == TsxHead + body + TsxFoot;
    ComponentShape(TsxImport, TsxComponent, TsxUse, TsxReturn, TsxClose, calls, body);
    if items == [] {
      assert calls == [];
    } else {
      assert calls != [] && calls[0] == TsxCall(items[0]);
    }
  }

  /** Helper: indentation followed by a line without a break is still one
      line. */
  lemma SpacesSingleLine(n: nat, s: string)
    requires '\n' !in s
    ensures '\n' !in Spaces(n) + s
  {
  }

  /** No line of `lines` holds a line break. */
  predicate NoBreaks(lines: seq<string>)
  {
    forall j :: 0 <= j < |lines| ==> '\n' !in lines[j]
  }

  /** Helper: a text joined from lines without breaks splits into them. */
  lemma SplitOfJoin(text: string, lines: seq<string>)
    requires |lines| >= 1 && NoBreaks(lines)
    requires text == Text.Join(lines, '\n')
    ensures Text.Split(text, '\n') == lines
  {
    Text.SplitJoin(lines, '\n');
  }

  /** Helper: line lists without breaks stay so when put together. */
  lemma NoBreaksConcat(xs: seq<string>, ys: seq<string>)
    requires NoBreaks(xs) && NoBreaks(ys)
    ensures NoBreaks(xs + ys)
  {
  }

  /** Helper: the fixed lines of the component hold no line break. */
  lemma TsxFixedSingle()
    ensures NoBreaks([[], TsxImport, [], TsxComponent, TsxUse])
    ensures NoBreaks([[], TsxReturn, TsxClose])
  {
    TsxImportSingle();
    TsxComponentSingle();
    TsxUseSingle();
    TsxFootSingle();
  }

  lemma TsxImportSingle()
    ensures '\n' !in TsxImport
  {
    SpacesSingleLine(16, "import { useTranslation }" + " from \"react-i18next\";");
  }

  lemma TsxComponentSingle()
    ensures '\n' !in TsxComponent
  {
    SpacesSingleLine(16, "export const DummyComponent = () => {");
  }

  lemma TsxUseSingle()
    ensures '\n' !in TsxUse
  {
    SpacesSingleLine(16, "const [t, i18n] = useTranslation();");
  }

  lemma TsxFootSingle()
    ensures '\n' !in TsxReturn && '\n' !in TsxClose
  {
    SpacesSingleLine(16, "return (<p></p>);");
    SpacesSingleLine(16, "};");
  }

  /** Helper: the component's lines hold no break when their parts hold
      none, for any contents of those parts. */
  lemma ComponentSingle(a: string, b: string, c: string, d: string, e: string, calls: seq<string>)
    requires NoBreaks([[], a, [], b, c]) && NoBreaks([[], d, e]) && NoBreaks(calls)
    ensures NoBreaks(if calls == [] then [[], a, [], b, c, d, e]
                     else [[], a, [], b, c + calls[0]] + calls[1..] + [[], d, e])
  {
    assert '\n' !in a && '\n' !in b && '\n' !in c by {
      var h: seq<string> := [[], a, [], b, c];
      assert h[1] == a && h[3] == b && h[4] == c;
    }
    assert '\n' !in d && '\n' !in e by {
      var t: seq<string> := [[], d, e];
      assert t[1] == d && t[2] == e;
    }
    if calls == [] {
      NoBreaksConcat([[], a, [], b, c], [d, e]);
      assert [[], a, [], b, c] + [d, e] == [[], a, [], b, c, d, e];
    } else {
      var first := [[], a, [], b, c + calls[0]];
      assert NoBreaks(first) by {
        assert '\n' !in calls[0];
      }
      assert NoBreaks(calls[1..]);
      NoBreaksConcat(first, calls[1..]);
      NoBreaksConcat(first + calls[1..], [[], d, e]);
    }
  }

  /** Helper: no line of the component holds a line break. */
  lemma {:induction false} TsxLinesSingle(items: seq<string>)
    requires SingleLines(items)
    ensures NoBreaks(TsxLines(items))
  {
    TsxFixedSingle();
    var calls := Seqs.Map(items, TsxCall);
    forall k | 0 <= k < |calls|
      ensures '\n' !in calls[k]
    {
      CleanupNameNewline(items[k]);
    }
    assert NoBreaks(calls);
    ComponentSingle(TsxImport, TsxComponent, TsxUse, TsxReturn, TsxClose, calls);
  }

  /** The component is, line for line, `TsxLines`. */
  lemma {:induction false} TsxSplit(items: seq<string>)
    requires SingleLines(items)
    ensures Text.Split(TsxText(items), '\n') == TsxLines(items)
  {
    TsxJoin(items);
    TsxLinesSingle(items);
    Text.SplitJoin(TsxLines(items), '\n');
  }

  // ---- wger/app_en.arb --------------------------------------------------

  /** One entry of the Flutter resource bundle: the cleaned key mapped to the
      name itself. */
  function ArbLine(item: string): string
  {
    "\"" + CleanupName(item) + "\": \"" + item + "\","
  }

  function ArbEntry(item: string): string
  {
    ArbLine(item) + "\n"
  }

  function ArbBlock(item: string): seq<string>
  {
    [ArbLine(item), []]
  }

  /** The fragment to paste at the end of `app_en.arb`. */
  function ArbText(items: seq<string>): string
  {
    Accumulate(items, ArbEntry)
  }

  /** One resource line per item, in order, each ending in a line break. */
  lemma {:induction false} ArbLines(items: seq<string>)
    requires SingleLines(items)
    ensures Text.Split(ArbText(items), '\n') == Seqs.Map(items, ArbLine) + [[]]
  {
    OneLineEntries(ArbEntry, ArbBlock, ArbLine);
    AccumulateLines(items, ArbEntry, ArbBlock);
    ChainOfLines(items, ArbBlock, ArbLine);
    ArbLinesSingle(items);
    Text.SplitJoin(Seqs.Map(items, ArbLine) + [[]], '\n');
  }

  /** Helper: an item without a line break makes a resource line without one. */
  lemma ArbLineSingle(item: string)
    requires '\n' !in item
    ensures '\n' !in ArbLine(item)
  {
    CleanupNameNewline(item);
  }

  /** Helper: the resource lines, and the empty last line, hold no break. */
  lemma {:induction false} ArbLinesSingle(items: seq<string>)
    requires SingleLines(items)
    ensures NoBreaks(Seqs.Map(items, ArbLine) + [[]])
  {
    var m := Seqs.Map(items, ArbLine);
    forall k | 0 <= k < |m|
      ensures '\n' !in m[k]
    {
      ArbLineSingle(items[k]);
    }
    NoBreaksConcat(m, [[]]);
  }

  // ---- wger/i18n.dart ---------------------------------------------------

  const DartSignature: string := "String getTranslation(" + "String value, BuildContext context) {"
  const DartSwitch: string := Spaces(18) + "switch (value) {"
  const DartFallback: string := Spaces(18) + "return 'NOT TRANSLATED';"
  const DartBrace: string := Spaces(18) + "}"
  const DartHead: string := DartSignature + "\n" + DartSwitch
  const DartFoot: string := "default:" + "\n" + DartFallback + "\n" + DartBrace + "\n" + DartBrace

  function DartCase(item: string): string
  {
    Spaces(16) + "case '" + item + "':"
  }

  function DartReturn(item: string): string
  {
    Spaces(20) + "return AppLocalizations.of(context)." + CleanupName(item) + ";"
  }

  /** One `case` of the switch, as the loop appends it. */
  function DartEntry(item: string): string
  {
    "\n" + DartCase(item) + "\n" + DartReturn(item) + "\n" + Spaces(16)
  }

  function DartBlock(item: string): seq<string>
  {
    [[], DartCase(item), DartReturn(item), Spaces(16)]
  }

  /** The Dart function: a switch over the name with one case per item and a
      default that answers 'NOT TRANSLATED'. */
  function DartText(items: seq<string>): string
  {
    DartHead + Accumulate(items, DartEntry) + DartFoot
  }

  /** The lines the cases contribute: three per item, in order. */
  function CaseLines(items: seq<string>): (r: seq<string>)
    ensures |r| == 3 * |items|
    ensures forall k :: 0 <= k < |items| ==>
              && r[3 * k] == DartCase(items[k])
              && r[3 * k + 1] == DartReturn(items[k])
              && r[3 * k + 2] == Spaces(16)
    decreases |items|
  {
    if items == [] then []
    else
      var init, x := items[..|items| - 1], items[|items| - 1];
      CaseLines(init) + [DartCase(x), DartReturn(x), Spaces(16)]
  }

  /** The lines of the Dart function. Without items `default:` lands on the
      line of the switch; otherwise it follows the indentation left after the
      last case. */
  function DartLines(items: seq<string>): seq<string>
  {
    if items == [] then [DartSignature, DartSwitch + "default:", DartFallback, DartBrace, DartBrace]
    else [DartSignature, DartSwitch] + CaseLines(items)[..3 * |items| - 1]
         + [Spaces(16) + "default:", DartFallback, DartBrace, DartBrace]
  }

  /** Helper: the shape of one case, for any contents of its lines. */
  lemma EntryShape(p: string, q: string, s: string)
    ensures "\n" + p + "\n" + q + "\n" + s == Text.Join([[], p, q, s], '\n')
  {
    Text.JoinFour([], p, q, s, '\n');
  }

  /** Helper: the cases chain into an empty line followed by `CaseLines`. */
  lemma {:induction false} DartChain(items: seq<string>)
    ensures Chain(items, DartBlock) == [[]] + CaseLines(items)
    decreases |items|
  {
    if items != [] {
      var init, x := items[..|items| - 1], items[|items| - 1];
      DartChain(init);
      var c := [[]] + CaseLines(init);
      var b := [DartCase(x), DartReturn(x), Spaces(16)];
      assert DartBlock(x) == [[]] + b;
      assert Chain(items, DartBlock) == Text.Glue(c, [[]] + b);
      Text.GlueBeforeBreak(c, b);
      assert CaseLines(items) == CaseLines(init) + b;
      assert c + b == [[]] + (CaseLines(init) + b);
    }
  }

  /** Helper: the lines of signature, cases and default once glued. */
  lemma {:induction false} SwitchGlue(sig: string, sw: string, d: string, cases: seq<string>, tail: seq<string>)
    ensures Text.Glue(Text.Glue([sig, sw], [[]] + cases), [d] + tail)
         == if cases == [] then [sig, sw + d] + tail
            else [sig, sw] + cases[..|cases| - 1] + [cases[|cases| - 1] + d] + tail
  {
    Text.GlueBeforeBreak([sig, sw], cases);
    var g := [sig, sw] + cases;
    if cases == [] {
      assert g == [sig] + [sw];
      Text.GlueLast([sig], sw, d, tail);
    } else {
      assert g == ([sig, sw] + cases[..|cases| - 1]) + [cases[|cases| - 1]];
      Text.GlueLast([sig, sw] + cases[..|cases| - 1], cases[|cases| - 1], d, tail);
    }
  }

  /** Helper: the lines of signature and switch. */
  lemma HeadPair(sig: string, sw: string)
    ensures sig + "\n" + sw == Text.Join([sig, sw], '\n')
  {
    Text.JoinCons(sig, [sw], '\n');
    assert [sig] + [sw] == [sig, sw];
  }

  /** Helper: the lines of the default branch and the closing braces. */
  lemma FootFour(d: string, fb: string, br: string)
    ensures d + "\n" + fb + "\n" + br + "\n" + br == Text.Join([d] + [fb, br, br], '\n')
  {
    Text.JoinFour(d, fb, br, br, '\n');
    assert [d, fb, br, br] == [d] + [fb, br, br];
  }

  /** Helper: the shape of the Dart function, for any contents of its lines. */
  lemma {:induction false} SwitchShape(sig: string, sw: string, d: string, fb: string, br: string,
                                       cases: seq<string>, body: string)
    requires body == Text.Join([[]] + cases, '\n')
    ensures (sig + "\n" + sw) + body + (d + "\n" + fb + "\n" + br + "\n" + br)
         == Text.Join(if cases == [] then [sig, sw + d, fb, br, br]
                      else [sig, sw] + cases[..|cases| - 1] + [cases[|cases| - 1] + d, fb, br, br], '\n')
  {
    var tail := [fb, br, br];
    HeadPair(sig, sw);
    FootFour(d, fb, br);
    Text.JoinConcat([sig, sw], [[]] + cases, '\n');
    var g := Text.Glue([sig, sw], [[]] + cases);
    Text.JoinConcat(g, [d] + tail, '\n');
    SwitchGlue(sig, sw, d, cases, tail);
    if cases == [] {
      assert [sig, sw + d] + tail == [sig, sw + d, fb, br, br];
    } else {
      var last := cases[|cases| - 1];
      assert [sig, sw] + cases[..|cases| - 1] + [last + d] + tail
          == [sig, sw] + cases[..|cases| - 1] + [last + d, fb, br, br];
    }
  }

  /** Helper: the Dart function is the join of `DartLines`. */
  lemma {:induction false} DartJoin(items: seq<string>)
    ensures DartText(items) == Text.Join(DartLines(items), '\n')
  {
    forall i
      ensures |DartBlock(i)| >= 1 && DartEntry(i) == Text.Join(DartBlock(i), '\n')
    {
      EntryShape(DartCase(i), DartReturn(i), Spaces(16));
    }
    AccumulateLines(items, DartEntry, DartBlock);
    DartChain(items);
    var cases := CaseLines(items);
    SwitchShape(DartSignature, DartSwitch, "default:", DartFallback, DartBrace, cases, Accumulate(items, DartEntry));
    if items != [] {
      var n := |items|;
      assert cases[3 * (n - 1) + 2] == Spaces(16);
      assert cases[|cases| - 1] == Spaces(16);
    }
  }

  /** Helper: the three lines of one case hold no line break. */
  lemma CaseBlockSingle(x: string)
    requires '\n' !in x
    ensures NoBreaks([DartCase(x), DartReturn(x), Spaces(16)])
  {
    CleanupNameNewline(x);
  }

  /** Helper: no case line holds a line break. */
  lemma {:induction false} CaseLinesSingle(items: seq<string>)
    requires SingleLines(items)
    ensures NoBreaks(CaseLines(items))
    decreases |items|
  {
    if items != [] {
      var init, x := items[..|items| - 1], items[|items| - 1];
      assert SingleLines(init);
      CaseLinesSingle(init);
      CaseBlockSingle(x);
      NoBreaksConcat(CaseLines(init), [DartCase(x), DartReturn(x), Spaces(16)]);
    }
  }

  lemma DartSignatureSingle()
    ensures '\n' !in DartSignature
  {
  }

  lemma DartSwitchSingle()
    ensures '\n' !in DartSwitch && '\n' !in DartSwitch + "default:"
  {
    SpacesSingleLine(18, "switch (value) {");
    SpacesSingleLine(18, "switch (value) {" + "default:");
    assert DartSwitch + "default:" == Spaces(18) + ("switch (value) {" + "default:");
  }

  /** Helper: the default branch and the closing braces hold no line break. */
  lemma DartTailSingle()
    ensures NoBreaks([DartFallback, DartBrace, DartBrace])
    ensures '\n' !in Spaces(16) + "default:"
  {
    SpacesSingleLine(18, "return 'NOT TRANSLATED';");
    SpacesSingleLine(18, "}");
    SpacesSingleLine(16, "default:");
  }

  /** Helper: no line of the Dart function holds a line break. */
  lemma {:induction false} DartLinesSingle(items: seq<string>)
    requires SingleLines(items)
    ensures NoBreaks(DartLines(items))
  {
    DartSignatureSingle();
    DartSwitchSingle();
    DartTailSingle();
    var tail := [DartFallback, DartBrace, DartBrace];
    if items == [] {
      NoBreaksConcat([DartSignature, DartSwitch + "default:"], tail);
    } else {
      CaseLinesSingle(items);
      var cases := CaseLines(items);
      var prefix := cases[..3 * |items| - 1];
      assert NoBreaks(prefix) by {
        forall j | 0 <= j < |prefix|
          ensures '\n' !in prefix[j]
        {
          assert prefix[j] == cases[j];
        }
      }
      NoBreaksConcat([DartSignature, DartSwitch], prefix);
      NoBreaksConcat([DartSignature, DartSwitch] + prefix, [Spaces(16) + "default:"] + tail);
      assert DartLines(items) == [DartSignature, DartSwitch] + prefix + ([Spaces(16) + "default:"] + tail);
    }
  }

  /** The Dart function is, line for line, `DartLines`. */
  lemma {:induction false} DartSplit(items: seq<string>)
    requires SingleLines(items)
    ensures Text.Split(DartText(items), '\n') == DartLines(items)
  {
    var text, lines := DartText(items), DartLines(items);
    DartJoin(items);
    DartLinesSingle(items);
    SplitOfJoin(text, lines);
  }
}
