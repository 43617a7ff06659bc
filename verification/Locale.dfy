/** The locale list the installer offers, the files fisherman writes for a locale and a
    keyboard, and readers of those files. */
module Locale {
  import opened Text
  import opened Sorting
  import opened Regex
  import opened Shapes

  // ---------- Python's split ----------

  function WordEnd(s: string): (i: nat)
    ensures i <= |s| && (i < |s| ==> IsSpace(s[i]))
    ensures forall k :: 0 <= k < i ==> !IsSpace(s[k])
  {
    if s == "" || IsSpace(s[0]) then 0 else 1 + WordEnd(s[1..])
  }

  /** str.split without arguments. */
  function Fields(line: string): seq<string>
    decreases |line|
  {
    var s := LStrip(line);
    if s == "" then [] else [s[..WordEnd(s)]] + Fields(s[WordEnd(s)..])
  }

  // ---------- supported_locales ----------

  /** The locale a line of the SUPPORTED file contributes. */
  ghost function Offered(line: string): Option<string> {
    var fields := Fields(line);
    if |fields| == 2 && fields[1] == "UTF-8" && PyLocale(fields[0]) then Some(fields[0]) else None
  }

  ghost function Offers(lines: seq<string>): (r: seq<Option<string>>)
    ensures |r| == |lines| && forall i :: 0 <= i < |lines| ==> r[i] == Offered(lines[i])
  {
    if lines == [] then [] else [Offered(lines[0])] + Offers(lines[1..])
  }

  ghost predicate IsOffered(text: string, name: string) {
    Some(name) in Offers(SplitLines(text))
  }

  /** The locale one line contributes, decided. */
  method OfferedBy(line: string) returns (r: Option<string>)
    ensures r == Offered(line)
  {
    var fields := Fields(line);
    if |fields| != 2 || fields[1] != "UTF-8" { return None; }
    var ok := ValidLocale(fields[0]);
    return if ok then Some(fields[0]) else None;
  }

  function Named(offers: seq<Option<string>>): (r: set<string>)
    ensures forall name :: name in r <==> Some(name) in offers
  {
    set o | o in offers && o.Some? :: o.value
  }

  lemma NamedNext(offers: seq<Option<string>>, i: nat)
    requires i < |offers|
    ensures Named(offers[..i + 1]) == Named(offers[..i]) + if offers[i].Some? then {offers[i].value} else {}
  {
    assert offers[..i + 1] == offers[..i] + [offers[i]];
  }

  /** supported_locales on the text of the file: the offered locales in order. */
  method SupportedLocales(text: string) returns (r: seq<string>)
    ensures forall name :: name in r <==> IsOffered(text, name)
    ensures forall i, j :: 0 <= i < j < |r| ==> LexLeq(r[i], r[j]) && r[i] != r[j]
  {
    var lines := SplitLines(text);
    ghost var offers := Offers(lines);
    var names: set<string> := {};
    for i := 0 to |lines|
      invariant names == Named(offers[..i])
    {
      var offer := OfferedBy(lines[i]);
      NamedNext(offers, i);
      if offer.Some? { names := names + {offer.value}; }
    }
    assert offers[..|lines|] == offers;
    LexIsTotal();
    r := SortSet(LexLeq, names);
  }

  // ---------- the locale files ----------

  /** The part after the first dot and before the first at sign that follows it. */
  function Charset(locale: string): string {
    var i := Find(locale, '.');
    if i == |locale| then "" else var rest := locale[i + 1..]; rest[..Find(rest, '@')]
  }

  function LangFile(locale: string): string {
    "LANG=" + locale + "\n"
  }

  function GenFile(locale: string): string {
    locale + " " + Charset(locale) + "\n"
  }

  lemma FirstAt(s: string, c: char, i: nat)
    requires i < |s| && s[i] == c && forall k :: 0 <= k < i ==> s[k] != c
    ensures Find(s, c) == i
  {
  }

  predicate NameChar(c: char) {
    IsAlnum(c) || c == '_' || c == '.' || c == '-' || c == '@'
  }

  lemma NameCharPlain(c: char)
    requires NameChar(c)
    ensures !IsSpace(c) && !IsLineBreak(c)
  {
  }

  predicate Plain(s: string) {
    forall k :: 0 <= k < |s| ==> NameChar(s[k])
  }

  lemma PlainWord(s: string)
    requires Plain(s)
    ensures forall k :: 0 <= k < |s| ==> !IsSpace(s[k]) && !IsLineBreak(s[k])
  {
    forall k | 0 <= k < |s| ensures !IsSpace(s[k]) && !IsLineBreak(s[k]) {
      NameCharPlain(s[k]);
    }
  }

  lemma CutsPlain(s: string, a: nat, b: nat, c: nat)
    requires LocaleAt(s, a, b, c)
    ensures Plain(s)
  {
    forall k | 0 <= k < |s| ensures NameChar(s[k]) {
      if k < a {
        assert In(Letter, s[k]);
      } else if a < k < b {
        assert In(Alnum, s[k]);
      } else if b < k < c {
        assert In(AlnumDash, s[k]);
      } else if c < k {
        assert In(Alnum, s[k]);
      }
    }
  }

  lemma DotFirst(s: string, a: nat, b: nat, c: nat)
    requires LocaleAt(s, a, b, c)
    ensures Find(s, '.') == b
  {
    forall k | 0 <= k < b ensures s[k] != '.' {
      if k < a {
        assert In(Letter, s[k]);
      } else if a < k {
        assert In(Alnum, s[k]);
      }
    }
    FirstAt(s, '.', b);
  }

  lemma CharsetEnd(s: string, a: nat, b: nat, c: nat)
    requires LocaleAt(s, a, b, c)
    ensures Find(s[b + 1..], '@') == c - b - 1
  {
    var rest := s[b + 1..];
    forall k | 0 <= k < c - b - 1 ensures rest[k] != '@' {
      assert rest[k] == s[b + 1 + k] && In(AlnumDash, s[b + 1 + k]);
    }
    if c < |s| {
      assert rest[c - b - 1] == s[c];
      FirstAt(rest, '@', c - b - 1);
    }
  }

  lemma CharsetCut(s: string, a: nat, b: nat, c: nat)
    requires LocaleAt(s, a, b, c)
    ensures Charset(s) == s[b + 1..c] && Charset(s) != ""
  {
    DotFirst(s, a, b, c);
    CharsetEnd(s, a, b, c);
    assert s[b + 1..][..c - b - 1] == s[b + 1..c];
  }

  lemma PlainPart(s: string, i: nat, j: nat)
    requires Plain(s) && i <= j <= |s|
    ensures Plain(s[i..j])
  {
  }

  /** A locale name is one word, and its charset is the part between the dot and the
      modifier. */
  lemma LocaleWord(s: string)
    requires GoLocale(s)
    ensures s != "" && Plain(s) && Charset(s) != "" && Plain(Charset(s))
  {
    GoAnchored(LOCALE_BODY, s);
    var a, b, c := LocaleCuts(Go, s);
    CutsPlain(s, a, b, c);
    CharsetCut(s, a, b, c);
    PlainPart(s, b + 1, c);
  }

  lemma FieldsStep(line: string, word: string, tail: string, more: seq<string>)
    requires LStrip(line) == word + tail && word != "" && WordEnd(word + tail) == |word| && Fields(tail) == more
    ensures Fields(line) == [word] + more
  {
    assert (word + tail)[..|word|] == word && (word + tail)[|word|..] == tail;
  }

  predicate NoSpace(s: string) {
    forall k :: 0 <= k < |s| ==> !IsSpace(s[k])
  }

  lemma WordEnds(word: string, tail: string)
    requires word != "" && NoSpace(word) && (tail == "" || IsSpace(tail[0]))
    ensures WordEnd(word + tail) == |word| && LStrip(word + tail) == word + tail
  {
    var s := word + tail;
    assert forall k :: 0 <= k < |word| ==> s[k] == word[k];
    assert tail != "" ==> s[|word|] == tail[0];
  }

  lemma LastField(b: string)
    requires b != "" && NoSpace(b)
    ensures Fields(" " + b) == [b]
  {
    WordEnds(b, "");
    assert b + "" == b;
    TailAppend(" ", b);
    assert " "[1..] + b == b;
    LStripFirst(" " + b, b);
    assert Fields("") == [];
    FieldsStep(" " + b, b, "", []);
  }

  lemma FirstField(a: string, b: string)
    requires a != "" && NoSpace(a)
    ensures Fields(a + (" " + b)) == [a] + Fields(" " + b)
  {
    var t := " " + b;
    TailAppend(" ", b);
    WordEnds(a, t);
    FieldsStep(a + t, a, t, Fields(t));
  }

  lemma WordFields(a: string, b: string)
    requires a != "" && b != "" && NoSpace(a) && NoSpace(b)
    ensures Fields(a + " " + b) == [a, b]
  {
    Associative(a, " ", b);
    FirstField(a, b);
    LastField(b);
  }

  lemma {:induction false} FieldsAreWords(line: string, word: string)
    requires word in Fields(line)
    ensures word != "" && NoSpace(word)
    decreases |line|
  {
    var s := LStrip(line);
    if s != "" {
      var n := WordEnd(s);
      FirstWord(s, n);
      var tail := Fields(s[n..]);
      FieldsCut(line, s, n, tail);
      if word in tail {
        FieldsAreWords(s[n..], word);
      }
    }
  }

  lemma FieldsCut(line: string, s: string, n: nat, tail: seq<string>)
    requires s == LStrip(line) && s != "" && n == WordEnd(s) && tail == Fields(s[n..])
    ensures Fields(line) == [s[..n]] + tail
  {
  }

  lemma FirstWord(s: string, n: nat)
    requires s != "" && !IsSpace(s[0]) && n == WordEnd(s)
    ensures 0 < n && s[..n] != "" && NoSpace(s[..n])
  {
  }

  /** Every locale the installer lists passes fisherman's check. */
  lemma OfferedPasses(text: string, name: string)
    requires IsOffered(text, name)
    ensures GoLocale(name)
  {
    var lines := SplitLines(text);
    var offers := Offers(lines);
    var i :| 0 <= i < |offers| && offers[i] == Some(name);
    assert Offered(lines[i]) == Some(name);
    FieldsAreWords(lines[i], name);
    assert IsSpace('\n');
    LocaleVersus(name);
  }

  /** A line offers its locale when it has two words, the second UTF-8 and the first a
      locale name; a line of one or of three words offers nothing. */
  lemma OfferedExactly(a: string, b: string, c: string)
    requires a != "" && NoSpace(a) && b != "" && NoSpace(b) && c != "" && NoSpace(c)
    ensures Offered(a + " " + b) == if b == "UTF-8" && PyLocale(a) then Some(a) else None
    ensures Offered(a) == None && Offered(a + " " + (b + " " + c)) == None
  {
    WordFields(a, b);
    LastField(a);
    LeadingBlank(a);
    ThreeWords(a, b, c);
    OfferedOf(a + " " + b, [a, b]);
    OfferedOf(a, [a]);
    OfferedOf(a + " " + (b + " " + c), [a, b, c]);
  }

  lemma ThreeWords(a: string, b: string, c: string)
    requires a != "" && NoSpace(a) && b != "" && NoSpace(b) && c != "" && NoSpace(c)
    ensures Fields(a + " " + (b + " " + c)) == [a, b, c]
  {
    var rest := b + " " + c;
    WordFields(b, c);
    LeadingBlank(rest);
    FirstField(a, rest);
    Associative(a, " ", rest);
    OneMore(a, b, c);
  }

  lemma OneMore<T>(a: T, b: T, c: T)
    ensures [a] + [b, c] == [a, b, c]
  {
  }

  lemma LeadingBlank(line: string)
    ensures Fields(" " + line) == Fields(line)
  {
    assert IsSpace(' ');
    LStripFirst(" " + line, line);
  }

  lemma OfferedOf(line: string, fields: seq<string>)
    requires Fields(line) == fields
    ensures Offered(line) == if |fields| == 2 && fields[1] == "UTF-8" && PyLocale(fields[0]) then Some(fields[0]) else None
  {
  }

  /** The charset is the part after the first dot and before the at sign. */
  lemma CharsetExactly(name: string, charset: string, modifier: string)
    requires Free(name, '.') && Free(charset, '@')
    ensures Charset(name + "." + charset) == charset && Charset(name + "." + charset + "@" + modifier) == charset
    ensures Charset(name) == ""
  {
    CharsetOf(name, charset, charset, name + "." + charset);
    CharsetOf(name, charset, charset + "@" + modifier, name + "." + charset + "@" + modifier);
    assert name[..|name|] == name;
  }

  lemma CharsetOf(name: string, charset: string, rest: string, s: string)
    requires Free(name, '.') && Free(charset, '@') && s == name + "." + rest
    requires rest == charset || (|rest| > |charset| && rest[..|charset|] == charset && rest[|charset|] == '@')
    ensures Charset(s) == charset
  {
    FirstSeparator(name, '.', rest);
    assert s[|name| + 1..] == rest;
    assert forall k :: 0 <= k < |charset| ==> rest[k] == charset[k];
    assert rest[..|charset|] == charset;
  }

  lemma OneLine(line: string)
    requires line != "" && forall k :: 0 <= k < |line| ==> !IsLineBreak(line[k])
    ensures SplitLines(line + "\n") == [line]
  {
    var s := line + "\n";
    assert s[|line|] == '\n';
    LineEndIs(s, |line|);
    assert s[..|line|] == line && s[|line| + 1..] == "";
    assert SplitLines("") == [];
  }

  lemma LineEndIs(s: string, i: nat)
    requires i < |s| && IsLineBreak(s[i]) && forall k :: 0 <= k < i ==> !IsLineBreak(s[k])
    ensures LineEnd(s) == i
  {
  }

  /** The locale.gen line fisherman writes is read back by the installer's list as that
      one locale, exactly when its charset is UTF-8. */
  lemma GenFileReadsBack(s: string)
    requires GoLocale(s)
    ensures forall name :: IsOffered(GenFile(s), name) <==> name == s && Charset(s) == "UTF-8"
  {
    LocaleWord(s);
    LocaleVersus(s);
    var line := s + " " + Charset(s);
    PlainWord(s);
    PlainWord(Charset(s));
    TwoWords(s, Charset(s));
    OneLine(line);
    WordFields(s, Charset(s));
    assert SplitLines(GenFile(s))[0] == line;
  }

  lemma TwoWords(a: string, b: string)
    requires (forall k :: 0 <= k < |a| ==> !IsLineBreak(a[k])) && (forall k :: 0 <= k < |b| ==> !IsLineBreak(b[k]))
    ensures forall k :: 0 <= k < |a + " " + b| ==> !IsLineBreak((a + " " + b)[k])
  {
  }

  // ---------- the keyboard file ----------

  /** Go's %q on a name of letters, digits, underscores and commas. */
  function Quoted(s: string): string {
    "\"" + s + "\""
  }

  function Assign(name: string, value: string): string {
    name + "=" + Quoted(value)
  }

  /** One assignment a line. */
  function Assigns(names: seq<string>, values: seq<string>): seq<string>
    requires |names| == |values|
  {
    if names == [] then []
    else Assigns(names[..|names| - 1], values[..|values| - 1]) + [Assign(names[|names| - 1], values[|values| - 1])]
  }

  const KEYBOARD_VARS := ["XKBMODEL", "XKBLAYOUT", "XKBVARIANT", "XKBOPTIONS", "BACKSPACE"]

  function KeyboardFile(model: string, layout: string, variant: string): string {
    Join(Assigns(KEYBOARD_VARS, [model, layout, variant, "", "guess"]) + [""], '\n')
  }

  /** A reader of shell assignments: the quoted value of the last line that sets the
      variable. */
  function ReadVar(lines: seq<string>, name: string): Option<string> {
    if lines == [] then None
    else
      var line := lines[|lines| - 1];
      var head := name + "=\"";
      if StartsWith(line, head) && EndsWith(line, "\"") && |head| < |line|
      then Some(line[|head|..|line| - 1])
      else ReadVar(lines[..|lines| - 1], name)
  }

  lemma ReadVarLast(lines: seq<string>, name: string, value: string)
    ensures ReadVar(lines + [Assign(name, value)], name) == Some(value)
  {
    var line := Assign(name, value);
    var head := name + "=\"";
    assert line == head + value + "\"";
    assert line[..|head|] == head && line[|line| - 1..] == "\"" && line[|head|..|line| - 1] == value;
    assert (lines + [line])[..|lines|] == lines;
  }

  lemma AssignHead(other: string, value: string, name: string)
    requires Free(other, '=') && Free(name, '=') && StartsWith(Assign(other, value), name + "=\"")
    ensures other == name
  {
    var line, head := Assign(other, value), name + "=\"";
    assert line == other + ['='] + Quoted(value) && head == name + ['='] + "\"";
    FirstSeparator(other, '=', Quoted(value));
    FirstSeparator(name, '=', "\"");
    assert line[..|head|][|name|] == '=';
    assert other == line[..|other|] && name == head[..|name|];
  }

  lemma ReadVarSkips(lines: seq<string>, other: string, value: string, name: string)
    requires other != name && Free(other, '=') && Free(name, '=')
    ensures ReadVar(lines + [Assign(other, value)], name) == ReadVar(lines, name)
  {
    assert (lines + [Assign(other, value)])[..|lines|] == lines;
    if StartsWith(Assign(other, value), name + "=\"") {
      AssignHead(other, value, name);
    }
  }

  /** Distinct variables keep their values. */
  lemma {:induction false} AssignsReadBack(names: seq<string>, values: seq<string>, i: nat)
    requires |names| == |values| && i < |names|
    requires forall k :: 0 <= k < |names| ==> Free(names[k], '=')
    requires forall k :: i < k < |names| ==> names[k] != names[i]
    ensures ReadVar(Assigns(names, values), names[i]) == Some(values[i])
  {
    var n := |names| - 1;
    var lines := Assigns(names[..n], values[..n]);
    if i == n {
      ReadVarLast(lines, names[n], values[n]);
    } else {
      ReadVarSkips(lines, names[n], values[n], names[i]);
      AssignsReadBack(names[..n], values[..n], i);
    }
  }

  lemma {:induction false} AssignsFree(names: seq<string>, values: seq<string>)
    requires |names| == |values|
    requires forall k :: 0 <= k < |names| ==> Free(names[k], '\n') && Free(values[k], '\n')
    ensures |Assigns(names, values)| == |names|
    ensures forall k :: 0 <= k < |names| ==> Free(Assigns(names, values)[k], '\n')
  {
    if names == [] {
    } else {
      AssignsFree(names[..|names| - 1], values[..|values| - 1]);
    }
  }

  lemma XkbNoNewline(s: string)
    requires GoXkb(s)
    ensures Free(s, '\n')
  {
    GoAnchored(XKB_BODY, s);
    XkbExact(Go, s);
  }

  lemma KeyboardVars()
    ensures forall k :: 0 <= k < |KEYBOARD_VARS| ==> Free(KEYBOARD_VARS[k], '=') && Free(KEYBOARD_VARS[k], '\n')
    ensures forall i, k :: 0 <= i < k < |KEYBOARD_VARS| ==> KEYBOARD_VARS[i] != KEYBOARD_VARS[k]
  {
    assert "XKBMODEL"[3] == 'M' && "XKBLAYOUT"[3] == 'L' && "XKBVARIANT"[3] == 'V' && "XKBOPTIONS"[3] == 'O' && "BACKSPACE"[3] == 'K';
  }

  lemma KeyboardLines(model: string, layout: string, variant: string)
    requires Free(model, '\n') && Free(layout, '\n') && Free(variant, '\n')
    ensures Split(KeyboardFile(model, layout, variant), '\n')
            == Assigns(KEYBOARD_VARS, [model, layout, variant, "", "guess"]) + [""]
  {
    var values := [model, layout, variant, "", "guess"];
    KeyboardVars();
    AssignsFree(KEYBOARD_VARS, values);
    SplitJoin(Assigns(KEYBOARD_VARS, values) + [""], '\n');
  }

  lemma {:induction false} AssignsAt(names: seq<string>, values: seq<string>)
    requires |names| == |values|
    ensures |Assigns(names, values)| == |names|
    ensures forall i :: 0 <= i < |names| ==> Assigns(names, values)[i] == names[i] + "=" + ("\"" + values[i] + "\"")
  {
    if names == [] {
    } else {
      AssignsAt(names[..|names| - 1], values[..|values| - 1]);
    }
  }

  /** The five lines of the keyboard file. */
  lemma KeyboardText(model: string, layout: string, variant: string)
    requires Free(model, '\n') && Free(layout, '\n') && Free(variant, '\n')
    ensures Split(KeyboardFile(model, layout, variant), '\n') ==
              ["XKBMODEL=\"" + model + "\"", "XKBLAYOUT=\"" + layout + "\"", "XKBVARIANT=\"" + variant + "\"",
               "XKBOPTIONS=\"\"", "BACKSPACE=\"guess\"", ""]
  {
    KeyboardLines(model, layout, variant);
    AssignsAt(KEYBOARD_VARS, [model, layout, variant, "", "guess"]);
    Glue("XKBMODEL", "XKBMODEL=\"", model);
    Glue("XKBLAYOUT", "XKBLAYOUT=\"", layout);
    Glue("XKBVARIANT", "XKBVARIANT=\"", variant);
    LiteralLines();
  }

  lemma Glue(name: string, head: string, value: string)
    requires head == name + "=\""
    ensures name + "=" + ("\"" + value + "\"") == head + value + "\""
  {
  }

  lemma LiteralLines()
    ensures "XKBOPTIONS" + "=" + ("\"" + "" + "\"") == "XKBOPTIONS=\"\""
    ensures "BACKSPACE" + "=" + ("\"" + "guess" + "\"") == "BACKSPACE=\"guess\""
  {
  }

  /** The keyboard file gives back the three names it was written for. */
  lemma KeyboardFileReadsBack(model: string, layout: string, variant: string)
    requires GoXkb(model) && GoXkb(layout) && (variant == "" || GoXkb(variant))
    ensures var lines := Split(KeyboardFile(model, layout, variant), '\n');
            && ReadVar(lines, "XKBMODEL") == Some(model)
            && ReadVar(lines, "XKBLAYOUT") == Some(layout)
            && ReadVar(lines, "XKBVARIANT") == Some(variant)
  {
    XkbNoNewline(model);
    XkbNoNewline(layout);
    if variant != "" {
      XkbNoNewline(variant);
    }
    KeyboardLines(model, layout, variant);
    var values := [model, layout, variant, "", "guess"];
    var lines := Assigns(KEYBOARD_VARS, values);
    KeyboardVars();
    forall i | 0 <= i < 3 ensures ReadVar(lines + [""], KEYBOARD_VARS[i]) == Some(values[i]) {
      AssignsReadBack(KEYBOARD_VARS, values, i);
      assert (lines + [""])[..|lines|] == lines;
    }
    assert KEYBOARD_VARS[0] == "XKBMODEL" && KEYBOARD_VARS[1] == "XKBLAYOUT" && KEYBOARD_VARS[2] == "XKBVARIANT";
  }
}
