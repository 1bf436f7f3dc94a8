// The metadata string of a secure application: escaping, joining, and reading it back.
// Models _escape, _check_str, _check_boolean and generate_metadata of
// libmink/SDK/QTVM/SecureAppMetadata.py.

module Metadata {
  import opened IdSetCodec
  import opened Mink

  // ---------------------------------------------------------------- escaping

  /** s.replace(c, t) for a one-character pattern */
  function Replace(s: string, c: char, t: string): string {
    if s == "" then "" else (if s[0] == c then t else [s[0]]) + Replace(s[1..], c, t)
  }

  /** _escape: four replacements, one after the other. */
  function Escape(s: string): string {
    Replace(Replace(Replace(Replace(s, '%', "%25"), ',', "%2C"), ';', "%3B"), '=', "%3D")
  }

  function EscapeChar(c: char): string {
    if c == '%' then "%25" else if c == ',' then "%2C" else if c == ';' then "%3B" else if c == '=' then "%3D" else [c]
  }

  /** All four characters escaped in one pass. */
  function EscapeAll(s: string): string {
    if s == "" then "" else EscapeChar(s[0]) + EscapeAll(s[1..])
  }

  lemma {:induction false} ReplaceConcat(a: string, b: string, c: char, t: string)
    ensures Replace(a + b, c, t) == Replace(a, c, t) + Replace(b, c, t)
  {
    if a == "" {
      assert a + b == b;
    } else {
      assert (a + b)[1..] == a[1..] + b;
      ReplaceConcat(a[1..], b, c, t);
    }
  }

  lemma EscapeConcat(a: string, b: string)
    ensures Escape(a + b) == Escape(a) + Escape(b)
  {
    var a1, b1 := Replace(a, '%', "%25"), Replace(b, '%', "%25");
    var a2, b2 := Replace(a1, ',', "%2C"), Replace(b1, ',', "%2C");
    ReplaceConcat(a, b, '%', "%25");
    ReplaceConcat(a1, b1, ',', "%2C");
    ReplaceConcat(a2, b2, ';', "%3B");
    ReplaceConcat(Replace(a2, ';', "%3B"), Replace(b2, ';', "%3B"), '=', "%3D");
  }

  /** Percent-decoding of two hexadecimal digits. */
  function Nibble(c: char): nat {
    if '0' <= c <= '9' then c as nat - '0' as nat
    else if 'A' <= c <= 'F' then 10 + (c as nat - 'A' as nat)
    else 0
  }

  function Unescape(s: string): string {
    if s == "" then ""
    else if s[0] == '%' && |s| >= 3 then [(16 * Nibble(s[1]) + Nibble(s[2])) as char] + Unescape(s[3..])
    else [s[0]] + Unescape(s[1..])
  }

  lemma {:induction false} Untouched(s: string, c: char, t: string)
    requires c !in s
    ensures Replace(s, c, t) == s
  {
    if s != "" {
      Untouched(s[1..], c, t);
    }
  }

  lemma ReplaceOne(x: char, c: char, t: string)
    ensures Replace([x], c, t) == if x == c then t else [x]
  {
    assert [x][1..] == "";
  }

  lemma EscapeOne(x: char)
    ensures Escape([x]) == EscapeChar(x)
  {
    hide Replace;
    ReplaceOne(x, '%', "%25");
    ReplaceOne(x, ',', "%2C");
    ReplaceOne(x, ';', "%3B");
    ReplaceOne(x, '=', "%3D");
    Untouched("%25", ',', "%2C");
    Untouched("%25", ';', "%3B");
    Untouched("%25", '=', "%3D");
    Untouched("%2C", ';', "%3B");
    Untouched("%2C", '=', "%3D");
    Untouched("%3B", '=', "%3D");
  }

  /** The replacements do not get in each other's way: together they are one character map. */
  lemma {:induction false} EscapeIsSimultaneous(s: string)
    ensures Escape(s) == EscapeAll(s)
  {
    if s != "" {
      assert s == [s[0]] + s[1..];
      EscapeConcat([s[0]], s[1..]);
      EscapeOne(s[0]);
      EscapeIsSimultaneous(s[1..]);
    }
  }

  lemma UnescapeChar(c: char, rest: string)
    ensures Unescape(EscapeChar(c) + rest) == [c] + Unescape(rest)
  {
    var t := EscapeChar(c) + rest;
    if |EscapeChar(c)| == 3 {
      assert t[3..] == rest;
    } else {
      assert t[1..] == rest;
    }
  }

  lemma EscapeCharIsClean(c: char)
    ensures ',' !in EscapeChar(c) && ';' !in EscapeChar(c) && '=' !in EscapeChar(c)
  {
  }

  lemma UnescapeNothing()
    ensures Unescape("") == ""
  {
  }

  lemma {:induction false} EscapeAllRoundTrip(s: string)
    ensures Unescape(EscapeAll(s)) == s
    ensures ',' !in EscapeAll(s) && ';' !in EscapeAll(s) && '=' !in EscapeAll(s)
  {
    hide Unescape, EscapeChar;
    if s == "" {
      UnescapeNothing();
    } else {
      EscapeAllRoundTrip(s[1..]);
      UnescapeChar(s[0], EscapeAll(s[1..]));
      EscapeCharIsClean(s[0]);
    }
  }

  /** Escaped text holds no separator and reads back as what was escaped. */
  lemma EscapeRoundTrip(s: string)
    ensures Unescape(Escape(s)) == s
    ensures ',' !in Escape(s) && ';' !in Escape(s) && '=' !in Escape(s)
  {
    hide Escape, EscapeAll, Unescape;
    EscapeIsSimultaneous(s);
    EscapeAllRoundTrip(s);
  }

  // ---------------------------------------------------------------- records

  /** sep.join(parts) */
  function Join(parts: seq<string>, sep: char): string {
    if parts == [] then "" else if |parts| == 1 then parts[0] else parts[0] + [sep] + Join(parts[1..], sep)
  }

  /** s.split(sep) */
  function Split(s: string, sep: char): (r: seq<string>)
    ensures r != []
  {
    if s == "" then [""]
    else if s[0] == sep then [""] + Split(s[1..], sep)
    else
      var rest := Split(s[1..], sep);
      [[s[0]] + rest[0]] + rest[1..]
  }

  lemma {:induction false} SplitFirst(a: string, b: string, sep: char)
    requires sep !in a
    ensures Split(a, sep) == [a]
    ensures Split(a + [sep] + b, sep) == [a] + Split(b, sep)
  {
    var t := a + [sep] + b;
    if a == "" {
      assert t[0] == sep && t[1..] == b;
    } else {
      SplitFirst(a[1..], b, sep);
      assert t[1..] == a[1..] + [sep] + b;
      assert t[0] == a[0] != sep;
      assert [a[0]] + a[1..] == a;
    }
  }

  lemma {:induction false} SplitJoin(parts: seq<string>, sep: char)
    requires parts != [] && forall p :: p in parts ==> sep !in p
    ensures Split(Join(parts, sep), sep) == parts
  {
    if |parts| == 1 {
      SplitFirst(parts[0], "", sep);
    } else {
      SplitJoin(parts[1..], sep);
      SplitFirst(parts[0], Join(parts[1..], sep), sep);
    }
  }

  /** Free of the separators of records. */
  ghost predicate Plainly(s: string) {
    ';' !in s && '=' !in s
  }

  ghost predicate NameOk(c: char) {
    c != ';' && c != '='
  }

  /** ['%s=%s' % (k, m[k]) for k in keys] */
  function Fields(m: map<char, string>, keys: seq<char>): (r: seq<string>)
    requires forall k :: k in keys ==> k in m
    ensures |r| == |keys|
  {
    if keys == [] then [] else [[keys[0]] + ['='] + m[keys[0]]] + Fields(m, keys[1..])
  }

  /** The reader of a record: fields split at ';', each into name and value at '='. */
  function Collect(fields: seq<string>): map<char, string> {
    if fields == [] then map[]
    else
      var kv := Split(fields[0], '=');
      var rest := Collect(fields[1..]);
      if |kv| == 2 && |kv[0]| == 1 then rest[kv[0][0] := kv[1]] else rest
  }

  function ReadRecord(s: string): map<char, string> {
    if s == "" then map[] else Collect(Split(s, ';'))
  }

  function Restrict(m: map<char, string>, keys: seq<char>): map<char, string> {
    map k | k in m && k in keys :: m[k]
  }

  lemma {:induction false} CollectFields(m: map<char, string>, keys: seq<char>)
    requires forall k :: k in keys ==> k in m
    requires forall k :: k in m ==> NameOk(k) && Plainly(m[k])
    ensures Collect(Fields(m, keys)) == Restrict(m, keys)
    ensures forall f :: f in Fields(m, keys) ==> ';' !in f && f != ""
  {
    if keys != [] {
      var k := keys[0];
      CollectFields(m, keys[1..]);
      SplitFirst([k], m[k], '=');
      SplitFirst(m[k], "", '=');
    }
  }

  /** Splitting the joined string on ';' and '=' recovers every field. */
  lemma RecordRoundTrip(m: map<char, string>, keys: seq<char>)
    requires forall k :: k in keys <==> k in m
    requires forall k :: k in m ==> NameOk(k) && Plainly(m[k])
    ensures ReadRecord(Join(Fields(m, keys), ';')) == m
  {
    CollectFields(m, keys);
    assert Restrict(m, keys) == m;
    if keys != [] {
      SplitJoin(Fields(m, keys), ';');
      assert Fields(m, keys)[0] in Fields(m, keys);
    } else {
      assert m == map[];
    }
  }

  // ---------------------------------------------------------------- generate_metadata

  /** Class names are taken as already looked up: privileges and services are class numbers. */
  datatype Data = Data(privileges: Option<seq<nat>>, services: Option<seq<nat>>,
                       appName: Option<string>, neverUnload: Option<string>)

  predicate Line(s: string) {
    1 <= |s| <= 31 && '\n' !in s
  }

  /** What the pattern .{1,31} between ^ and $ lets through; $ also matches before a final newline. */
  predicate NameFits(s: string) {
    Line(s) || (s != "" && s[|s| - 1] == '\n' && Line(s[..|s| - 1]))
  }

  /** The keys of the record, in the order of `all`. */
  function Chosen(all: seq<char>, m: map<char, string>): seq<char> {
    if all == [] then [] else (if all[0] in m then [all[0]] else []) + Chosen(all[1..], m)
  }

  /** sorted(metadata.keys()) */
  function SortedKeys(m: map<char, string>): seq<char> { Chosen("Unps", m) }

  /** The field holds exactly these class numbers, and is absent when there are none. */
  ghost predicate HoldsSet(m: map<char, string>, key: char, ids: seq<nat>) {
    if key in m then ids != [] && Decode(m[key]) == IdSet(SetOf(ids)) else ids == []
  }

  /** The field holds the text that was given, and is absent when none was. */
  ghost predicate HoldsText(m: map<char, string>, key: char, text: Option<string>) {
    if key in m then text == Some(Unescape(m[key])) else text.None?
  }

  ghost predicate Faithful(m: map<char, string>, d: Data, defaults: seq<nat>) {
    && m.Keys <= {'U', 'n', 'p', 's'}
    && HoldsSet(m, 'p', if d.privileges.Some? then d.privileges.value else defaults)
    && HoldsSet(m, 's', if d.services.Some? then d.services.value else [])
    && HoldsText(m, 'n', d.appName)
    && HoldsText(m, 'U', d.neverUnload)
  }

  ghost predicate Tidy(m: map<char, string>) {
    forall k :: k in m ==> NameOk(k) && Plainly(m[k])
  }

  ghost predicate Extends(m: map<char, string>, m0: map<char, string>, key: char) {
    && (forall k :: k in m0 ==> k in m && m[k] == m0[k])
    && (forall k :: k in m ==> k in m0 || k == key)
  }

  /** _gen_class_set_string: an empty set leaves the field out. */
  method AddSet(m0: map<char, string>, key: char, ids: seq<nat>) returns (m: map<char, string>)
    requires Tidy(m0) && NameOk(key) && key !in m0
    ensures Tidy(m) && HoldsSet(m, key, ids) && Extends(m, m0, key)
  {
    m := m0;
    if ids != [] {
      var s := EncodeIdSet(ids);
      m := m[key := s];
    }
  }

  /** _check_str or _check_boolean, the text having passed the check. */
  method AddText(m0: map<char, string>, key: char, text: Option<string>) returns (m: map<char, string>)
    requires Tidy(m0) && NameOk(key) && key !in m0
    ensures Tidy(m) && HoldsText(m, key, text) && Extends(m, m0, key)
  {
    m := m0;
    if text.Some? {
      EscapeRoundTrip(text.value);
      m := m[key := Escape(text.value)];
    }
  }

  ghost predicate Rising(keys: seq<char>) {
    forall i, j :: 0 <= i < j < |keys| ==> keys[i] < keys[j]
  }

  lemma {:induction false} ChosenRises(all: seq<char>, m: map<char, string>)
    requires Rising(all)
    ensures Rising(Chosen(all, m)) && forall k :: k in Chosen(all, m) <==> k in all && k in m
  {
    if all != [] {
      ChosenRises(all[1..], m);
      forall i | 0 <= i < |Chosen(all[1..], m)| ensures all[0] < Chosen(all[1..], m)[i] {
        assert Chosen(all[1..], m)[i] in all[1..];
      }
    }
  }

  /** The fields of the string are those of the record, and nothing else, in the order of their names. */
  ghost predicate InOrder(fields: seq<string>, m: map<char, string>) {
    && (forall i :: 0 <= i < |fields| ==>
          fields[i] != "" && fields[i][0] in m && fields[i] == [fields[i][0]] + "=" + m[fields[i][0]])
    && (forall i, j :: 0 <= i < j < |fields| && fields[i] != "" && fields[j] != "" ==> fields[i][0] < fields[j][0])
  }

  lemma {:induction false} FieldAt(m: map<char, string>, keys: seq<char>, i: nat)
    requires (forall k :: k in keys ==> k in m) && i < |keys|
    ensures Fields(m, keys)[i] == [keys[i]] + "=" + m[keys[i]]
  {
    if i > 0 { FieldAt(m, keys[1..], i - 1); }
  }

  lemma NoFields(m: map<char, string>)
    ensures Join(Fields(m, []), ';') == ""
  {
  }

  lemma FieldsInOrder(m: map<char, string>, keys: seq<char>)
    requires (forall k :: k in keys <==> k in m) && Rising(keys) && Tidy(m)
    ensures var s := Join(Fields(m, keys), ';'); s != "" ==> InOrder(Split(s, ';'), m)
  {
    hide Join, Split, Fields, Collect, Restrict;
    if keys == [] {
      NoFields(m);
      return;
    }
    CollectFields(m, keys);
    SplitJoin(Fields(m, keys), ';');
    forall i | 0 <= i < |keys| ensures Fields(m, keys)[i] == [keys[i]] + "=" + m[keys[i]] {
      FieldAt(m, keys, i);
    }
  }

  predicate Boolean(s: string) {
    s == "true" || s == "false"
  }

  /** A name of 1 to 31 characters on one line; a final newline is let through. */
  ghost predicate ShortName(s: string) {
    exists n: nat :: 1 <= n <= 31 && n <= |s| && '\n' !in s[..n] && (s == s[..n] || s == s[..n] + "\n")
  }

  lemma NameFitsExactly(s: string)
    ensures NameFits(s) <==> ShortName(s)
  {
    if Line(s) {
      assert s == s[..|s|];
    } else if NameFits(s) {
      assert s == s[..|s| - 1] + "\n";
    }
    if n: nat :| 1 <= n <= 31 && n <= |s| && '\n' !in s[..n] && (s == s[..n] || s == s[..n] + "\n") {
      if s != s[..n] { assert s[..|s| - 1] == s[..n]; }
    }
  }

  /** The loop over the fields, those with a text having passed their checks. */
  method Gather(d: Data, defaults: seq<nat>) returns (m: map<char, string>)
    ensures Tidy(m) && Faithful(m, d, defaults)
  {
    hide Unescape, Decode;
    m := map[];
    m := AddSet(m, 'p', if d.privileges.Some? then d.privileges.value else defaults);
    m := AddSet(m, 's', if d.services.Some? then d.services.value else []);
    m := AddText(m, 'n', d.appName);
    m := AddText(m, 'U', d.neverUnload);
  }

  /** generate_metadata; None stands for the exception. Read back, the string gives what was put in,
      field by field. */
  method GenerateMetadata(d: Data, defaults: seq<nat>) returns (r: Option<string>)
    ensures r.None? <==> (d.appName.Some? && !ShortName(d.appName.value))
                         || (d.neverUnload.Some? && d.neverUnload.value !in {"true", "false"})
    ensures r.Some? ==> Faithful(ReadRecord(r.value), d, defaults)
    ensures r.Some? && r.value != "" ==> InOrder(Split(r.value, ';'), ReadRecord(r.value))
  {
    hide Line, NameFits, ShortName, Join, Split, Fields, Chosen;
    if d.appName.Some? { NameFitsExactly(d.appName.value); }
    if d.appName.Some? && !NameFits(d.appName.value) {
      return None;
    }
    if d.neverUnload.Some? && !Boolean(d.neverUnload.value) {
      return None;
    }
    var m := Gather(d, defaults);
    ChosenRises("Unps", m);
    RecordRoundTrip(m, SortedKeys(m));
    FieldsInOrder(m, SortedKeys(m));
    return Some(Join(Fields(m, SortedKeys(m)), ';'));
  }
}
