/** keyboard_layouts: the layouts and variants of an XKB rules list. */
module Keyboard {
  import opened Text
  import opened Sorting
  import opened Shapes
  import opened Locale

  /** One offered keyboard; the variant is empty for the plain layout. */
  datatype Entry = Entry(layout: string, variant: string, text: string)

  /** The reader's variables; `keys` is the insertion order of the dictionary. */
  datatype Reader = Reader(section: string, keys: seq<string>, layouts: map<string, string>, variants: seq<Entry>)

  const START := Reader("", [], map[], [])

  function HeaderOf(line: string): Option<string> {
    if StartsWith(line, "!") then Some(Strip(line[1..])) else None
  }

  /** `line.strip().split(None, 1)` when it gives two fields. */
  function SplitOnce(line: string): Option<(string, string)> {
    var s := Strip(line);
    var w := WordEnd(s);
    if s == "" || w == |s| then None else Some((s[..w], LStrip(s[w..])))
  }

  /** A variant line's owner and description; no description, no variant. */
  function SplitOwner(text: string): Option<(string, string)> {
    var i := FindColon(text);
    if i + 2 >= |text| then None else Some((text[..i], text[i + 2..]))
  }

  /** `! layout` opens the section layout, and so for every name without outer blanks. */
  lemma HeaderExactly(section: string)
    ensures Trimmed(section) ==> HeaderOf("! " + section) == Some(section)
    ensures HeaderOf("! layout") == Some("layout") && HeaderOf("! variant") == Some("variant")
  {
    if Trimmed(section) { HeaderTrimmed("! " + section, section); }
    SectionNames();
    HeaderTrimmed("! layout", "layout");
    HeaderTrimmed("! variant", "variant");
  }

  lemma SectionNames()
    ensures Trimmed("layout") && Trimmed("variant")
    ensures "! " + "layout" == "! layout" && "! " + "variant" == "! variant"
  {
    assert !IsSpace('l') && !IsSpace('t') && !IsSpace('v');
  }

  lemma HeaderTrimmed(line: string, section: string)
    requires line == "! " + section && Trimmed(section)
    ensures HeaderOf(line) == Some(section)
  {
    assert line[..1] == "!" && line[1..] == " " + section;
    assert IsSpace(' ');
    LStripFirst(" " + section, section);
    LStripNone(section);
    StripIdentity(section);
  }

  /** A variant's text is its owner, a colon and a blank, and its description. */
  lemma OwnerExactly(owner: string, d: string)
    requires d != "" && forall k :: 0 <= k < |owner| - 1 ==> !(owner[k] == ':' && owner[k + 1] == ' ')
    ensures SplitOwner(owner + ": " + d) == Some((owner, d))
  {
    FirstColon(owner, d);
  }

  /** An item line is a name, blanks, and a text without outer blanks. */
  lemma ItemExactly(name: string, text: string)
    requires name != "" && NoSpace(name) && text != "" && Trimmed(text)
    ensures SplitOnce("  " + name + " " + text) == Some((name, text))
  {
    var line, s := "  " + name + " " + text, name + (" " + text);
    Indented(line, s);
    assert s[0] == name[0] && s[|s| - 1] == text[|text| - 1];
    StripIdentity(s);
    NameCut(name, text, s);
  }

  lemma Indented(line: string, s: string)
    requires line == "  " + s && s != "" && !IsSpace(s[0])
    ensures Strip(line) == RStrip(s) == Strip(s)
  {
    assert IsSpace(' ') && line[1..] == " " + s && (" " + s)[1..] == s;
    LStripFirst(line, " " + s);
    LStripFirst(" " + s, s);
    LStripNone(s);
  }

  lemma NameCut(name: string, text: string, s: string)
    requires name != "" && NoSpace(name) && text != "" && !IsSpace(text[0]) && s == name + (" " + text)
    ensures WordEnd(s) == |name| < |s| && s[..|name|] == name && LStrip(s[|name|..]) == text
  {
    assert IsSpace(' ');
    WordEnds(name, " " + text);
    assert s[|name|..] == " " + text;
    LStripFirst(" " + text, text);
    LStripNone(text);
  }

  /** What a line of the list is to the reader; `valid` is the verdict on the name. */
  datatype Line = Header(section: string) | Item(name: string, text: string, valid: bool) | Other

  ghost function Parse(line: string): Line {
    match HeaderOf(line)
    case Some(h) => Header(h)
    case None =>
      match SplitOnce(line)
      case Some((name, text)) => Item(name, text, PyXkb(name))
      case None => Other
  }

  /** The three kinds of lines: a header names its section, an item its name and text; an
      empty line and a line of one word are neither. */
  lemma LineExactly(section: string, name: string, text: string)
    requires Trimmed(section) && name != "" && NoSpace(name) && text != "" && Trimmed(text)
    ensures Parse("! " + section) == Header(section)
    ensures Parse("  " + name + " " + text) == Item(name, text, PyXkb(name))
    ensures Parse("") == Other && (name[0] != '!' ==> Parse(name) == Other)
  {
    HeaderTrimmed("! " + section, section);
    ItemLine("  " + name + " " + text, name, text);
    NoHeader("");
    NoItem("");
    OneWord(name);
    if name[0] != '!' {
      NoHeader(name);
      NoItem(name);
    }
  }

  lemma ItemLine(line: string, name: string, text: string)
    requires name != "" && NoSpace(name) && text != "" && Trimmed(text) && line == "  " + name + " " + text
    ensures Parse(line) == Item(name, text, PyXkb(name))
  {
    ItemExactly(name, text);
    assert line[0] == ' ';
    NoHeader(line);
    ParsedItem(line, name, text);
  }

  lemma ParsedItem(line: string, name: string, text: string)
    requires HeaderOf(line).None? && SplitOnce(line) == Some((name, text))
    ensures Parse(line) == Item(name, text, PyXkb(name))
  {
  }

  lemma NoHeader(line: string)
    requires line == "" || line[0] != '!'
    ensures HeaderOf(line).None?
  {
    assert line != "" ==> line[..1] == [line[0]];
    assert !StartsWith(line, "!");
  }

  lemma NoItem(line: string)
    requires HeaderOf(line).None? && SplitOnce(line).None?
    ensures Parse(line) == Other
  {
  }

  lemma OneWord(name: string)
    requires name != "" && NoSpace(name)
    ensures SplitOnce(name).None?
  {
    WholeWord(name);
  }

  lemma WholeWord(name: string)
    requires name != "" && NoSpace(name)
    ensures Strip(name) == name && WordEnd(name) == |name|
  {
    assert name + "" == name;
    WordEnds(name, "");
    StripIdentity(name);
  }

  ghost function ParseAll(lines: seq<string>): (r: seq<Line>)
    ensures |r| == |lines| && forall i :: 0 <= i < |lines| ==> r[i] == Parse(lines[i])
  {
    seq(|lines|, i requires 0 <= i < |lines| => Parse(lines[i]))
  }

  function Step(st: Reader, line: Line): Reader {
    match line
    case Header(h) => st.(section := h)
    case Item(name, text, true) =>
      if st.section == "layout" then
        st.(keys := if name in st.layouts then st.keys else st.keys + [name],
            layouts := st.layouts[name := text])
      else if st.section == "variant" && SplitOwner(text).Some? then
        st.(variants := st.variants + [Entry(SplitOwner(text).value.0, name, SplitOwner(text).value.1)])
      else st
    case _ => st
  }

  function ReadFrom(st: Reader, lines: seq<Line>): Reader
    decreases |lines|
  {
    if lines == [] then st else ReadFrom(Step(st, lines[0]), lines[1..])
  }

  ghost function Read(lines: seq<string>): Reader {
    ReadFrom(START, ParseAll(lines))
  }

  function Plain(keys: seq<string>, layouts: map<string, string>): seq<Entry>
    requires forall k :: k in keys ==> k in layouts
  {
    if keys == [] then []
    else Plain(keys[..|keys| - 1], layouts) + [Entry(keys[|keys| - 1], "", layouts[keys[|keys| - 1]])]
  }

  function Owned(variants: seq<Entry>, layouts: map<string, string>): seq<Entry> {
    if variants == [] then []
    else
      var v, rest := variants[|variants| - 1], Owned(variants[..|variants| - 1], layouts);
      if v.layout in layouts then rest + [Entry(v.layout, v.variant, layouts[v.layout] + " - " + v.text)] else rest
  }

  /** The dictionary and its insertion order agree. */
  ghost predicate Consistent(st: Reader) {
    && (forall k :: k in st.keys <==> k in st.layouts)
    && (forall i, j :: 0 <= i < j < |st.keys| ==> st.keys[i] != st.keys[j])
  }

  lemma {:induction false} ReadConsistent(st: Reader, lines: seq<Line>)
    requires Consistent(st)
    ensures Consistent(ReadFrom(st, lines))
    decreases |lines|
  {
    if lines == [] {
    } else {
      ReadConsistent(Step(st, lines[0]), lines[1..]);
    }
  }

  /** The unsorted result. */
  ghost function Entries(st: Reader): seq<Entry>
    requires Consistent(st)
  {
    Plain(st.keys, st.layouts) + Owned(st.variants, st.layouts)
  }

  /** The sort key: folded description, layout, variant. */
  predicate KeyLeq(fold: string -> string, a: Entry, b: Entry) {
    if fold(a.text) != fold(b.text) then LexLeq(fold(a.text), fold(b.text))
    else if a.layout != b.layout then LexLeq(a.layout, b.layout)
    else LexLeq(a.variant, b.variant)
  }

  lemma KeyOrder(fold: string -> string)
    ensures Preorder((a, b) => KeyLeq(fold, a, b))
  {
    LexIsTotal();
    var le := (a, b) => KeyLeq(fold, a, b);
    forall a, b ensures le(a, b) || le(b, a) {
    }
    forall a, b, c | le(a, b) && le(b, c) ensures le(a, c) {
      KeyTransitive(fold, a, b, c);
    }
  }

  lemma Between(x: string, y: string, z: string)
    requires TotalOrder(LexLeq) && LexLeq(x, y) && LexLeq(y, z) && x != y
    ensures LexLeq(x, z) && x != z
  {
  }

  lemma KeyTransitive(fold: string -> string, a: Entry, b: Entry, c: Entry)
    requires TotalOrder(LexLeq) && KeyLeq(fold, a, b) && KeyLeq(fold, b, c)
    ensures KeyLeq(fold, a, c)
  {
    var x, y, z := fold(a.text), fold(b.text), fold(c.text);
    if x != y {
      if y != z { Between(x, y, z); }
    } else if y == z && a.layout != b.layout && b.layout != c.layout {
      Between(a.layout, b.layout, c.layout);
    }
  }

  /** keyboard_layouts on the lines of the list: the sorted entries. */
  method KeyboardLayouts(fold: string -> string, lines: seq<string>) returns (r: seq<Entry>)
    ensures Consistent(Read(lines)) && multiset(r) == multiset(Entries(Read(lines)))
    ensures Sorted((a, b) => KeyLeq(fold, a, b), r)
  {
    ghost var ls := ParseAll(lines);
    ReadConsistent(START, ls);
    var section, keys, layouts, variants := "", [], map[], [];
    for i := 0 to |lines|
      invariant ReadFrom(Reader(section, keys, layouts, variants), ls[i..]) == Read(lines)
    {
      var line := lines[i];
      assert ls[i..][1..] == ls[i + 1..] && ls[i..][0] == Parse(line);
      match HeaderOf(line) {
        case Some(h) =>
          section := h;
        case None =>
          match SplitOnce(line) {
            case Some((name, text)) =>
              var ok := ValidXkb(name);
              if section == "layout" && ok {
                if name !in layouts { keys := keys + [name]; }
                layouts := layouts[name := text];
              } else if section == "variant" && ok {
                match SplitOwner(text) {
                  case Some((owner, description)) => variants := variants + [Entry(owner, name, description)];
                  case None =>
                }
              }
            case None =>
          }
      }
    }
    assert ls[|lines|..] == [];
    KeyOrder(fold);
    r := SortSeq((a, b) => KeyLeq(fold, a, b), Plain(keys, layouts) + Owned(variants, layouts));
  }

  // ---------- what the entries are ----------

  lemma {:induction false} ReadAppend(st: Reader, a: seq<Line>, b: seq<Line>)
    ensures ReadFrom(st, a + b) == ReadFrom(ReadFrom(st, a), b)
    decreases |a|
  {
    if a == [] {
      assert a + b == b;
    } else {
      ReadAppend(Step(st, a[0]), a[1..], b);
      TailAppend(a, b);
    }
  }

  lemma ReadLast(lines: seq<Line>)
    requires lines != []
    ensures ReadFrom(START, lines) == Step(ReadFrom(START, lines[..|lines| - 1]), lines[|lines| - 1])
  {
    var a, x := lines[..|lines| - 1], lines[|lines| - 1];
    assert lines == a + [x];
    ReadAppend(START, a, [x]);
    ReadOne(ReadFrom(START, a), x);
  }

  lemma ReadOne(st: Reader, x: Line)
    ensures ReadFrom(st, [x]) == Step(st, x)
  {
    assert [x][1..] == [];
  }

  /** The section a line after `lines` is in: that of the last header. */
  function Section(lines: seq<Line>): string {
    if lines == [] then ""
    else if lines[|lines| - 1].Header? then lines[|lines| - 1].section
    else Section(lines[..|lines| - 1])
  }

  /** Line i is an accepted line of the section. */
  predicate Accepted(lines: seq<Line>, i: nat, section: string)
    requires i < |lines|
  {
    lines[i].Item? && lines[i].valid && Section(lines[..i]) == section
  }

  /** Line i is the last accepted layout line for the name, with this text. */
  predicate Describes(lines: seq<Line>, i: nat, name: string, text: string)
    requires i < |lines|
  {
    && Accepted(lines, i, "layout") && lines[i].name == name && lines[i].text == text
    && forall j :: i < j < |lines| && Accepted(lines, j, "layout") ==> lines[j].name != name
  }

  lemma {:induction false} SectionRead(lines: seq<Line>)
    ensures ReadFrom(START, lines).section == Section(lines)
  {
    if lines == [] {
    } else {
      ReadLast(lines);
      SectionRead(lines[..|lines| - 1]);
    }
  }

  lemma DescribesLast(lines: seq<Line>, name: string, text: string)
    requires lines != []
    ensures var n := |lines| - 1;
            (exists i :: 0 <= i < |lines| && Describes(lines, i, name, text)) <==>
              if Accepted(lines, n, "layout") && lines[n].name == name then lines[n].text == text
              else exists i :: 0 <= i < n && Describes(lines[..n], i, name, text)
  {
    var n := |lines| - 1;
    var a := lines[..n];
    forall i | 0 <= i < n ensures Accepted(a, i, "layout") <==> Accepted(lines, i, "layout") {
      assert a[..i] == lines[..i];
    }
    if Accepted(lines, n, "layout") && lines[n].name == name {
      assert Describes(lines, n, name, lines[n].text);
    } else {
      assert forall i :: 0 <= i < n ==> (Describes(a, i, name, text) <==> Describes(lines, i, name, text));
    }
  }

  /** Exactly the layouts with an accepted line are listed, each with the description of
      its last such line. */
  lemma {:induction false} LayoutsExact(lines: seq<Line>, name: string, text: string)
    ensures var layouts := ReadFrom(START, lines).layouts;
            name in layouts && layouts[name] == text <==> exists i :: 0 <= i < |lines| && Describes(lines, i, name, text)
  {
    if lines == [] {
    } else {
      ReadLast(lines);
      SectionRead(lines[..|lines| - 1]);
      LayoutsExact(lines[..|lines| - 1], name, text);
      DescribesLast(lines, name, text);
    }
  }

  /** The variant of an accepted variant line that has a description. */
  function VariantsOf(lines: seq<Line>): seq<Entry> {
    if lines == [] then []
    else
      var n := |lines| - 1;
      var rest := VariantsOf(lines[..n]);
      if Accepted(lines, n, "variant") && SplitOwner(lines[n].text).Some?
      then rest + [Entry(SplitOwner(lines[n].text).value.0, lines[n].name, SplitOwner(lines[n].text).value.1)]
      else rest
  }

  /** One variant for each accepted variant line, in order. */
  lemma {:induction false} VariantsExact(lines: seq<Line>)
    ensures ReadFrom(START, lines).variants == VariantsOf(lines)
  {
    if lines == [] {
    } else {
      ReadLast(lines);
      SectionRead(lines[..|lines| - 1]);
      VariantsExact(lines[..|lines| - 1]);
    }
  }

  lemma {:induction false} PlainExact(keys: seq<string>, layouts: map<string, string>, e: Entry)
    requires forall k :: k in keys ==> k in layouts
    ensures e in Plain(keys, layouts) <==> e.layout in keys && e.variant == "" && e.text == layouts[e.layout]
  {
    if keys == [] {
    } else {
      PlainExact(keys[..|keys| - 1], layouts, e);
    }
  }

  lemma {:induction false} OwnedExact(variants: seq<Entry>, layouts: map<string, string>, e: Entry)
    ensures e in Owned(variants, layouts) <==>
            exists v :: v in variants && v.layout in layouts && e == Entry(v.layout, v.variant, layouts[v.layout] + " - " + v.text)
  {
    if variants == [] {
    } else {
      var n := |variants| - 1;
      OwnedExact(variants[..n], layouts, e);
      assert forall v :: v in variants <==> v in variants[..n] || v == variants[n];
    }
  }

  /** Each layout has one plain entry, however many lines describe it. */
  lemma {:induction false} OncePerLayout(keys: seq<string>, layouts: map<string, string>, k: string)
    requires (forall x :: x in keys ==> x in layouts) && k in layouts
    requires forall i, j :: 0 <= i < j < |keys| ==> keys[i] != keys[j]
    ensures multiset(Plain(keys, layouts))[Entry(k, "", layouts[k])] == if k in keys then 1 else 0
  {
    if keys == [] {
    } else {
      var n := |keys| - 1;
      OncePerLayout(keys[..n], layouts, k);
      assert forall x :: x in keys <==> x in keys[..n] || x == keys[n];
      assert keys[n] !in keys[..n];
    }
  }

  /** The variants of `variants` that become the entry e. */
  function Sources(variants: seq<Entry>, layouts: map<string, string>, e: Entry): set<nat> {
    set i: nat | i < |variants| && variants[i].layout in layouts
                 && e == Entry(variants[i].layout, variants[i].variant, layouts[variants[i].layout] + " - " + variants[i].text)
  }

  /** An entry of a variant is listed as often as there are lines for it. */
  lemma {:induction false} OncePerVariantLine(variants: seq<Entry>, layouts: map<string, string>, e: Entry)
    ensures multiset(Owned(variants, layouts))[e] == |Sources(variants, layouts, e)|
  {
    if variants == [] {
    } else {
      var n := |variants| - 1;
      OncePerVariantLine(variants[..n], layouts, e);
      SourcesStep(variants, layouts, e);
    }
  }

  lemma SourcesStep(variants: seq<Entry>, layouts: map<string, string>, e: Entry)
    requires variants != []
    ensures var n := |variants| - 1;
            |Sources(variants, layouts, e)| == |Sources(variants[..n], layouts, e)| + if n in Sources(variants, layouts, e) then 1 else 0
  {
    var n := |variants| - 1;
    var before, now := Sources(variants[..n], layouts, e), Sources(variants, layouts, e);
    forall i: nat ensures i in now <==> i in before || (i == n && n in now) {
      assert i < n ==> variants[..n][i] == variants[i];
    }
    assert now == before + if n in now then {n} else {};
  }

  lemma {:induction false} VariantNamesValid(lines: seq<Line>, v: Entry)
    requires v in VariantsOf(lines)
    ensures exists i :: 0 <= i < |lines| && Accepted(lines, i, "variant") && lines[i].name == v.variant
  {
    var n := |lines| - 1;
    if v in VariantsOf(lines[..n]) {
      VariantNamesValid(lines[..n], v);
      var i :| 0 <= i < n && Accepted(lines[..n], i, "variant") && lines[..n][i].name == v.variant;
      assert lines[..n][..i] == lines[..i];
      assert Accepted(lines, i, "variant") && lines[i].name == v.variant;
    } else {
      assert Accepted(lines, n, "variant") && lines[n].name == v.variant;
    }
  }

  lemma NameHasNoSpace(line: string)
    requires SplitOnce(line).Some?
    ensures SplitOnce(line).value.0 != "" && !EndsInNewline(SplitOnce(line).value.0)
  {
    var s := Strip(line);
    assert !IsSpace(s[0]) by {
      assert s == LStrip(line)[..|s|];
    }
    var name := s[..WordEnd(s)];
    assert !IsSpace(name[|name| - 1]);
    assert IsSpace('\n');
  }

  lemma AcceptedNameIsGo(lines: seq<string>, i: nat, section: string)
    requires i < |lines| && Accepted(ParseAll(lines), i, section)
    ensures GoXkb(ParseAll(lines)[i].name)
  {
    NameHasNoSpace(lines[i]);
    XkbVersus(ParseAll(lines)[i].name);
  }

  /** Every offered keyboard passes fisherman's check, which runs after the disk is
      written. */
  lemma EntriesPass(lines: seq<string>, e: Entry)
    requires Consistent(Read(lines)) && e in Entries(Read(lines))
    ensures GoXkb(e.layout) && (e.variant == "" || GoXkb(e.variant))
  {
    var ls, st := ParseAll(lines), Read(lines);
    PlainExact(st.keys, st.layouts, e);
    OwnedExact(st.variants, st.layouts, e);
    LayoutsExact(ls, e.layout, st.layouts[e.layout]);
    var i :| 0 <= i < |ls| && Describes(ls, i, e.layout, st.layouts[e.layout]);
    AcceptedNameIsGo(lines, i, "layout");
    if e in Owned(st.variants, st.layouts) {
      var v :| v in st.variants && v.layout in st.layouts && e == Entry(v.layout, v.variant, st.layouts[v.layout] + " - " + v.text);
      VariantsExact(ls);
      VariantNamesValid(ls, v);
      var j :| 0 <= j < |ls| && Accepted(ls, j, "variant") && ls[j].name == v.variant;
      AcceptedNameIsGo(lines, j, "variant");
    }
  }

  // ---------- the order of the sections ----------

  /** A block of whole sections, none of them called `section`. */
  predicate BlockWithout(lines: seq<Line>, section: string) {
    && (lines != [] ==> lines[0].Header?)
    && forall i :: 0 <= i < |lines| && lines[i].Header? ==> lines[i].section != section
  }

  predicate SameLayouts(a: Reader, b: Reader) {
    a.keys == b.keys && a.layouts == b.layouts
  }

  lemma {:induction false} LayoutsUntouched(st: Reader, lines: seq<Line>)
    requires forall i :: 0 <= i < |lines| && lines[i].Header? ==> lines[i].section != "layout"
    requires st.section != "layout" || (lines != [] ==> lines[0].Header?)
    ensures SameLayouts(ReadFrom(st, lines), st)
    decreases |lines|
  {
    if lines == [] {
    } else {
      LayoutsUntouched(Step(st, lines[0]), lines[1..]);
    }
  }

  lemma {:induction false} VariantsUntouched(st: Reader, lines: seq<Line>)
    requires forall i :: 0 <= i < |lines| && lines[i].Header? ==> lines[i].section != "variant"
    requires st.section != "variant" || (lines != [] ==> lines[0].Header?)
    ensures ReadFrom(st, lines).variants == st.variants
    decreases |lines|
  {
    if lines == [] {
    } else {
      VariantsUntouched(Step(st, lines[0]), lines[1..]);
    }
  }

  /** Layouts and variants are read independently of each other, section by section. */
  lemma {:induction false} Projections(a: Reader, b: Reader, lines: seq<Line>)
    requires a.section == b.section || lines == [] || lines[0].Header?
    ensures SameLayouts(a, b) ==> SameLayouts(ReadFrom(a, lines), ReadFrom(b, lines))
    ensures a.variants == b.variants ==> ReadFrom(a, lines).variants == ReadFrom(b, lines).variants
    decreases |lines|
  {
    if lines == [] {
    } else {
      Projections(Step(a, lines[0]), Step(b, lines[0]), lines[1..]);
    }
  }

  /** It does not matter whether the variant sections come before or after the layout
      sections. */
  lemma SectionOrder(pre: seq<Line>, a: seq<Line>, b: seq<Line>, post: seq<Line>)
    requires BlockWithout(a, "variant") && BlockWithout(b, "layout") && (post == [] || post[0].Header?)
    ensures var x, y := ReadFrom(START, pre + a + b + post), ReadFrom(START, pre + b + a + post);
            SameLayouts(x, y) && x.variants == y.variants
  {
    var p := ReadFrom(START, pre);
    var pa, pb := ReadFrom(p, a), ReadFrom(p, b);
    var pab, pba := ReadFrom(pa, b), ReadFrom(pb, a);
    ReadAppend(START, pre, a);
    ReadAppend(START, pre + a, b);
    ReadAppend(START, pre + a + b, post);
    ReadAppend(START, pre, b);
    ReadAppend(START, pre + b, a);
    ReadAppend(START, pre + b + a, post);
    VariantsUntouched(p, a);
    VariantsUntouched(pb, a);
    LayoutsUntouched(p, b);
    LayoutsUntouched(pa, b);
    Projections(pb, p, a);
    Projections(pa, p, b);
    Projections(pab, pba, post);
  }
}
