/**
 * JSON values as the firewall bridge reads them with serde_json, and their
 * compact rendering (`serde_json::to_string`). Objects keep their members in
 * the order the parser produced, which for serde_json's default map is
 * ascending key order. Numbers are integers; floating point is not modelled.
 */
module Json {
  import opened Wrappers
  import Strings

  datatype Json =
    | JNull
    | JBool(b: bool)
    | JNum(n: int)
    | JStr(s: string)
    | JArr(items: seq<Json>)
    | JObj(fields: seq<(string, Json)>)

  const U64_LIMIT := 0x1_0000_0000_0000_0000

  /** The first member named `key`. */
  function Lookup(fs: seq<(string, Json)>, key: string): (r: Option<Json>)
    ensures r.None? <==> forall i :: 0 <= i < |fs| ==> fs[i].0 != key
    ensures r.Some? ==> exists i :: 0 <= i < |fs| && fs[i] == (key, r.value) && forall k :: 0 <= k < i ==> fs[k].0 != key
  {
    if fs == [] then None
    else if fs[0].0 == key then Some(fs[0].1)
    else
      var r := Lookup(fs[1..], key);
      assert forall i :: 1 <= i < |fs| ==> fs[i] == fs[1..][i - 1];
      if r.Some? then
        assert exists i :: 0 <= i < |fs[1..]| && fs[1..][i] == (key, r.value) && forall k :: 0 <= k < i ==> fs[1..][k].0 != key;
        var i :| 0 <= i < |fs[1..]| && fs[1..][i] == (key, r.value) && forall k :: 0 <= k < i ==> fs[1..][k].0 != key;
        assert fs[i + 1] == (key, r.value) && forall k :: 0 <= k < i + 1 ==> fs[k].0 != key;
        r
      else r
  }

  /** A first member of another name is passed over. */
  lemma LookupSkip(fs: seq<(string, Json)>, key: string)
    requires fs != [] && fs[0].0 != key
    ensures Lookup(fs, key) == Lookup(fs[1..], key)
  {
  }

  /** A first member of that name is the one found. */
  lemma LookupHead(fs: seq<(string, Json)>, key: string)
    requires fs != [] && fs[0].0 == key
    ensures Lookup(fs, key) == Some(fs[0].1)
  {
  }

  /** `Value::get(key)`: a member of an object; nothing for any other value. */
  function Get(j: Json, key: string): (r: Option<Json>)
    ensures !j.JObj? ==> r.None?
    ensures j.JObj? ==> r == Lookup(j.fields, key)
  {
    if j.JObj? then Lookup(j.fields, key) else None
  }

  /** `Value::as_array`. */
  function AsArray(j: Json): (r: Option<seq<Json>>)
    ensures r.Some? <==> j.JArr?
    ensures r.Some? ==> r.value == j.items
  {
    if j.JArr? then Some(j.items) else None
  }

  /** `Value::as_str`. */
  function AsStr(j: Json): (r: Option<string>)
    ensures r.Some? <==> j.JStr?
    ensures r.Some? ==> r.value == j.s
  {
    if j.JStr? then Some(j.s) else None
  }

  /** `Value::as_u64`: an integer in the range of `u64`. */
  function AsU64(j: Json): (r: Option<nat>)
    ensures r.Some? <==> j.JNum? && 0 <= j.n < U64_LIMIT
    ensures r.Some? ==> r.value == j.n && r.value < U64_LIMIT
  {
    if j.JNum? && 0 <= j.n < U64_LIMIT then Some(j.n) else None
  }

  function HexDigit(d: nat): char
    requires d < 16
  {
    "0123456789abcdef"[d]
  }

  /** The escape serde_json writes for one character of a string. */
  function EscapeChar(c: char): (r: string)
    ensures |r| >= 1
    ensures (c == '"' || c == '\\' || c < ' ') <==> r != [c]
  {
    if c == '"' then "\\\""
    else if c == '\\' then "\\\\"
    else if c as int == 0x08 then "\\b"
    else if c == '\t' then "\\t"
    else if c == '\n' then "\\n"
    else if c as int == 0x0C then "\\f"
    else if c == '\r' then "\\r"
    else if c < ' ' then "\\u00" + [HexDigit(c as int / 16), HexDigit(c as int % 16)]
    else [c]
  }

  function Escape(s: string): string
  {
    if s == [] then "" else EscapeChar(s[0]) + Escape(s[1..])
  }

  /** A string that serde_json writes without escapes. */
  predicate Plain(s: string)
  {
    forall i :: 0 <= i < |s| ==> s[i] != '"' && s[i] != '\\' && s[i] >= ' '
  }

  lemma {:induction false} EscapePlain(s: string)
    requires Plain(s)
    ensures Escape(s) == s
  {
    if s != [] {
      EscapePlain(s[1..]);
      assert s == [s[0]] + s[1..];
    }
  }

  function Quote(s: string): string
  {
    "\"" + Escape(s) + "\""
  }

  /** `serde_json::to_string`: compact, no white space. */
  function Serialize(j: Json): string
    decreases j
  {
    match j
    case JNull => "null"
    case JBool(b) => if b then "true" else "false"
    case JNum(n) => Strings.IntToString(n)
    case JStr(s) => Quote(s)
    case JArr(items) =>
      "[" + Strings.Join(seq(|items|, i requires 0 <= i < |items| => Serialize(items[i])), ",") + "]"
    case JObj(fields) =>
      "{" + Strings.Join(seq(|fields|, i requires 0 <= i < |fields| =>
                           Quote(fields[i].0) + ":" + Serialize(fields[i].1)), ",") + "}"
  }

  /** A member name and its colon, for a name that needs no escapes. */
  function Key(name: string): string { "\"" + name + "\":" }

  /** A name that needs no escapes is written as itself between quotes. */
  lemma KeyPlain(name: string)
    requires Plain(name)
    ensures Quote(name) + ":" == Key(name)
  {
    EscapePlain(name);
    assert Quote(name) + ":" == "\"" + name + "\"" + ":";
  }

  /** A two-member object, from the texts of its values. */
  lemma Object2(k1: string, v1: Json, t1: string, k2: string, v2: Json, t2: string)
    requires Plain(k1) && Plain(k2)
    requires Serialize(v1) == t1 && Serialize(v2) == t2
    ensures Serialize(JObj([(k1, v1), (k2, v2)])) == "{" + ((Key(k1) + t1) + "," + (Key(k2) + t2)) + "}"
  {
    KeyPlain(k1);
    KeyPlain(k2);
    var fs := [(k1, v1), (k2, v2)];
    var items := seq(|fs|, i requires 0 <= i < |fs| => Quote(fs[i].0) + ":" + Serialize(fs[i].1));
    assert items == [Key(k1) + t1, Key(k2) + t2];
    assert items[1..] == [items[1]];
    assert Strings.Join(items, ",") == items[0] + "," + items[1];
  }

  /** One member of an object as serde_json writes it. */
  function MemberText(f: (string, Json)): string
  {
    Quote(f.0) + ":" + Serialize(f.1)
  }

  lemma ObjectMembers5(fs: seq<(string, Json)>)
    requires |fs| == 5
    ensures Serialize(JObj(fs)) ==
              "{" + Strings.Join([MemberText(fs[0]), MemberText(fs[1]), MemberText(fs[2]),
                                  MemberText(fs[3]), MemberText(fs[4])], ",") + "}"
  {
    var items := seq(|fs|, i requires 0 <= i < |fs| => Quote(fs[i].0) + ":" + Serialize(fs[i].1));
    assert items == [MemberText(fs[0]), MemberText(fs[1]), MemberText(fs[2]), MemberText(fs[3]), MemberText(fs[4])];
  }

  /** A five-member object, from the texts of its values. */
  lemma Object5(k1: string, v1: Json, t1: string, k2: string, v2: Json, t2: string,
                k3: string, v3: Json, t3: string, k4: string, v4: Json, t4: string,
                k5: string, v5: Json, t5: string)
    requires Plain(k1) && Plain(k2) && Plain(k3) && Plain(k4) && Plain(k5)
    requires Serialize(v1) == t1 && Serialize(v2) == t2 && Serialize(v3) == t3
    requires Serialize(v4) == t4 && Serialize(v5) == t5
    ensures Serialize(JObj([(k1, v1), (k2, v2), (k3, v3), (k4, v4), (k5, v5)])) ==
              "{" + ((Key(k1) + t1) + "," + ((Key(k2) + t2) + "," + ((Key(k3) + t3)
              + "," + ((Key(k4) + t4) + "," + (Key(k5) + t5))))) + "}"
  {
    var fs := [(k1, v1), (k2, v2), (k3, v3), (k4, v4), (k5, v5)];
    ObjectMembers5(fs);
    KeyPlain(k1);
    KeyPlain(k2);
    KeyPlain(k3);
    KeyPlain(k4);
    KeyPlain(k5);
    Join5(Key(k1) + t1, Key(k2) + t2, Key(k3) + t3, Key(k4) + t4, Key(k5) + t5);
  }

  lemma Join5(a: string, b: string, c: string, d: string, e: string)
    ensures Strings.Join([a, b, c, d, e], ",") == a + "," + (b + "," + (c + "," + (d + "," + e)))
  {
    assert [a, b, c, d, e][1..] == [b, c, d, e];
    assert [b, c, d, e][1..] == [c, d, e];
    assert [c, d, e][1..] == [d, e];
    assert [d, e][1..] == [e];
    assert Strings.Join([e], ",") == e;
    assert Strings.Join([d, e], ",") == d + "," + e;
    assert Strings.Join([c, d, e], ",") == c + "," + (d + "," + e);
    assert Strings.Join([b, c, d, e], ",") == b + "," + (c + "," + (d + "," + e));
  }

  /** A plain string value is rendered as itself between quotes. */
  lemma SerializePlainString(s: string)
    requires Plain(s)
    ensures Serialize(JStr(s)) == "\"" + s + "\""
  {
    EscapePlain(s);
  }
}
