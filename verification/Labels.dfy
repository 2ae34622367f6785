/** Label sets and their text form. */
module Labels {
  import opened Strings

  type Set = map<string, string>

  // ---------- strings.Split, strings.SplitN and strings.Join ----------

  /** The position of the first c, or the length when there is none. */
  function Index(s: string, c: char): nat {
    if s == "" || s[0] == c then 0 else 1 + Index(s[1..], c)
  }

  lemma {:induction false} IndexIsFirst(s: string, c: char)
    ensures Index(s, c) <= |s| && c !in s[..Index(s, c)]
    ensures Index(s, c) < |s| <==> c in s
    ensures Index(s, c) < |s| ==> s[Index(s, c)] == c
  {
    if s != "" && s[0] != c {
      IndexIsFirst(s[1..], c);
      assert s == [s[0]] + s[1..];
      assert s[..Index(s, c)] == [s[0]] + s[1..][..Index(s[1..], c)];
    }
  }

  /** In a + [c] + b with no c in a, the first c is the one in the middle. */
  lemma {:induction false} IndexAfter(a: string, c: char, b: string)
    requires c !in a
    ensures Index(a + [c] + b, c) == |a|
  {
    var s := a + [c] + b;
    if a != "" {
      assert s[1..] == a[1..] + [c] + b;
      IndexAfter(a[1..], c, b);
    }
  }

  function Split(raw: string): seq<string>
    decreases |raw|
  {
    var i := Index(raw, ',');
    if i < |raw| then [raw[..i]] + Split(raw[i + 1..]) else [raw]
  }

  function Join(parts: seq<string>): string {
    if parts == [] then ""
    else if |parts| == 1 then parts[0]
    else parts[0] + [','] + Join(parts[1..])
  }

  lemma {:induction false} SplitJoin(parts: seq<string>)
    requires parts != [] && forall i :: 0 <= i < |parts| ==> ',' !in parts[i]
    ensures Split(Join(parts)) == parts
  {
    var s := Join(parts);
    if |parts| == 1 {
      IndexIsFirst(s, ',');
    } else {
      var rest := Join(parts[1..]);
      IndexAfter(parts[0], ',', rest);
      assert s[..|parts[0]|] == parts[0] && s[|parts[0]| + 1..] == rest;
      SplitJoin(parts[1..]);
    }
  }

  lemma {:induction false} SplitHasNoCommas(raw: string)
    ensures forall i :: 0 <= i < |Split(raw)| ==> ',' !in Split(raw)[i]
    decreases |raw|
  {
    var i := Index(raw, ',');
    IndexIsFirst(raw, ',');
    if i < |raw| {
      SplitHasNoCommas(raw[i + 1..]);
    }
  }

  // ---------- format and parse ----------

  function Entry(k: string, v: string): string {
    k + ['='] + v
  }

  function Entries(keys: seq<string>, m: Set): seq<string>
    requires forall k :: k in keys ==> k in m
  {
    if keys == [] then [] else Entries(keys[..|keys| - 1], m) + [Entry(keys[|keys| - 1], m[keys[|keys| - 1]])]
  }

  ghost function FormatSpec(m: Set): string {
    assert forall k :: k in Sorted(m.Keys) ==> k in Elements(Sorted(m.Keys));
    Join(Entries(Sorted(m.Keys), m))
  }

  /** A part without an equals sign is passed over. */
  function ParsePart(out: Set, part: string): Set {
    var i := Index(part, '=');
    if i < |part| then out[TrimSpace(part[..i]) := TrimSpace(part[i + 1..])] else out
  }

  function ParseParts(parts: seq<string>): Set {
    if parts == [] then map[] else ParsePart(ParseParts(parts[..|parts| - 1]), parts[|parts| - 1])
  }

  function ParseSpec(raw: string): Set {
    ParseParts(Split(raw))
  }

  /** Ranges over the keys of a map in an arbitrary order. */
  method Collect(keys: set<string>) returns (found: seq<string>)
    ensures Elements(found) == keys
  {
    var todo := keys;
    found := [];
    while todo != {}
      invariant todo <= keys && Elements(found) == keys - todo
      decreases |todo|
    {
      var k :| k in todo;
      AppendElements(found, k);
      found := found + [k];
      todo := todo - {k};
    }
  }

  /** labels.Keys: the keys in whatever order the map is ranged over, then sorted. */
  method Keys(m: Set) returns (out: seq<string>)
    ensures out == Sorted(m.Keys)
  {
    var found := Collect(m.Keys);
    out := Sort(found);
  }

  method Format(m: Set) returns (s: string)
    ensures s == FormatSpec(m)
  {
    var keys := Keys(m);
    var parts := FormatEntries(m, keys);
    s := Join(parts);
  }

  method FormatEntries(m: Set, keys: seq<string>) returns (parts: seq<string>)
    requires Elements(keys) == m.Keys
    ensures (forall k :: k in keys ==> k in m) && parts == Entries(keys, m)
  {
    assert forall k :: k in keys ==> k in Elements(keys);
    parts := [];
    for i := 0 to |keys|
      invariant parts == Entries(keys[..i], m)
    {
      assert keys[..i + 1][..i] == keys[..i];
      parts := parts + [keys[i] + "=" + m[keys[i]]];
    }
    assert keys[..|keys|] == keys;
  }

  method Parse(raw: string) returns (out: Set)
    ensures out == ParseSpec(raw)
  {
    out := map[];
    var parts := Split(raw);
    for n := 0 to |parts|
      invariant out == ParseParts(parts[..n])
    {
      assert parts[..n + 1][..n] == parts[..n];
      var i := Index(parts[n], '=');
      if i < |parts[n]| {
        out := out[TrimSpace(parts[n][..i]) := TrimSpace(parts[n][i + 1..])];
      }
    }
    assert parts[..|parts|] == parts;
  }

  // ---------- the round trip ----------

  predicate Plain(k: string, v: string) {
    ',' !in k && '=' !in k && ',' !in v && Trimmed(k) && Trimmed(v)
  }

  /** Keys without comma or equals sign, values without comma, and neither with outer space. */
  ghost predicate Conforming(m: Set) {
    forall k :: k in m ==> Plain(k, m[k])
  }

  lemma ParseEntry(out: Set, k: string, v: string)
    requires Plain(k, v)
    ensures ParsePart(out, Entry(k, v)) == out[k := v]
  {
    IndexAfter(k, '=', v);
    assert Entry(k, v)[..|k|] == k && Entry(k, v)[|k| + 1..] == v;
    TrimSpaceTrims(k);
    TrimSpaceTrims(v);
  }

  lemma RestrictedAppend(init: seq<string>, k: string, m: Set)
    requires (forall x :: x in init ==> x in m) && k in m
    ensures (map x | x in init :: m[x])[k := m[k]] == map x | x in init + [k] :: m[x]
  {
  }

  lemma {:induction false} ParseEntries(keys: seq<string>, m: Set)
    requires Conforming(m) && forall k :: k in keys ==> k in m
    ensures ParseParts(Entries(keys, m)) == map k | k in keys :: m[k]
    ensures |Entries(keys, m)| == |keys|
    ensures forall i :: 0 <= i < |keys| ==> ',' !in Entries(keys, m)[i]
  {
    if keys != [] {
      var n := |keys| - 1;
      var init, k := keys[..n], keys[n];
      ParseEntries(init, m);
      assert keys == init + [k];
      var parts := Entries(keys, m);
      assert parts[..|parts| - 1] == Entries(init, m);
      assert Plain(k, m[k]);
      ParseEntry(ParseParts(Entries(init, m)), k, m[k]);
      RestrictedAppend(init, k, m);
    }
  }

  lemma RoundTrip(m: Set)
    requires Conforming(m)
    ensures ParseSpec(FormatSpec(m)) == m
  {
    var keys := Sorted(m.Keys);
    assert forall k :: k in keys <==> k in Elements(keys);
    ParseEntries(keys, m);
    var parts := Entries(keys, m);
    assert m == map k | k in keys :: m[k];
    if parts == [] {
      assert Split("") == [""];
      assert ParseParts([""]) == ParsePart(ParseParts([""][..0]), "");
    } else {
      SplitJoin(parts);
    }
  }

  lemma TrimKeepsOut(s: string, c: char)
    requires c !in s
    ensures c !in TrimSpace(s)
  {
    TrimSpaceTrims(s);
    var i, j :| 0 <= i <= j <= |s| && TrimSpace(s) == s[i..j];
    assert forall x :: x in s[i..j] ==> x in s;
  }

  lemma PartIsPlain(out: Set, part: string)
    requires Conforming(out) && ',' !in part
    ensures Conforming(ParsePart(out, part))
  {
    var i := Index(part, '=');
    IndexIsFirst(part, '=');
    if i < |part| {
      var k, v := part[..i], part[i + 1..];
      TrimKeepsOut(k, '=');
      TrimKeepsOut(k, ',');
      TrimKeepsOut(v, ',');
      TrimSpaceTrims(k);
      TrimSpaceTrims(v);
    }
  }

  lemma {:induction false} PartsArePlain(parts: seq<string>)
    requires forall i :: 0 <= i < |parts| ==> ',' !in parts[i]
    ensures Conforming(ParseParts(parts))
  {
    if parts != [] {
      PartsArePlain(parts[..|parts| - 1]);
      PartIsPlain(ParseParts(parts[..|parts| - 1]), parts[|parts| - 1]);
    }
  }

  /** Whatever the text, what Parse returns conforms. */
  lemma ParseConforms(raw: string)
    ensures Conforming(ParseSpec(raw))
  {
    SplitHasNoCommas(raw);
    PartsArePlain(Split(raw));
  }

  /** Formatting and parsing gives a set back if and only if the set conforms; the empty set is one that does. */
  lemma RoundTripExactlyWhenConforming(m: Set)
    ensures ParseSpec(FormatSpec(m)) == m <==> Conforming(m)
  {
    if Conforming(m) {
      RoundTrip(m);
    }
    ParseConforms(FormatSpec(m));
  }

  /** Hence conforming sets with the same text are the same set. */
  lemma FormatInjective(a: Set, b: Set)
    requires Conforming(a) && Conforming(b) && FormatSpec(a) == FormatSpec(b)
    ensures a == b
  {
    RoundTrip(a);
    RoundTrip(b);
  }

  /** And one pass through Parse and Format settles any text. */
  lemma ParseIsCanonical(raw: string)
    ensures ParseSpec(FormatSpec(ParseSpec(raw))) == ParseSpec(raw)
  {
    ParseConforms(raw);
    RoundTrip(ParseSpec(raw));
  }


  // ---------- any text ----------

  /** The part names the key, with this value: what stands before and after its first equals sign, trimmed. */
  ghost predicate Names(part: string, k: string, v: string) {
    exists a, b :: part == a + "=" + b && '=' !in a && TrimSpace(a) == k && TrimSpace(b) == v
  }

  ghost predicate NamesKey(part: string, k: string) {
    exists v :: Names(part, k, v)
  }

  lemma PartNames(out: Set, part: string, k: string)
    ensures NamesKey(part, k) ==> k in ParsePart(out, part) && Names(part, k, ParsePart(out, part)[k])
    ensures !NamesKey(part, k) ==>
              (k in ParsePart(out, part) <==> k in out) && (k in out ==> ParsePart(out, part)[k] == out[k])
  {
    var i := Index(part, '=');
    IndexIsFirst(part, '=');
    if i < |part| {
      assert part == part[..i] + "=" + part[i + 1..];
      assert Names(part, TrimSpace(part[..i]), TrimSpace(part[i + 1..]));
    }
    if NamesKey(part, k) {
      var w :| Names(part, k, w);
      var a, b :| part == a + "=" + b && '=' !in a && TrimSpace(a) == k && TrimSpace(b) == w;
      assert part == a + ['='] + b;
      IndexAfter(a, '=', b);
      assert part[..|a|] == a && part[|a| + 1..] == b;
    }
  }

  ghost predicate Named(parts: seq<string>, k: string) {
    exists i :: 0 <= i < |parts| && NamesKey(parts[i], k)
  }

  /** The last part that names the key gives it this value. */
  ghost predicate Wins(parts: seq<string>, k: string, v: string) {
    exists i :: 0 <= i < |parts| && Names(parts[i], k, v) && forall j :: i < j < |parts| ==> !NamesKey(parts[j], k)
  }

  lemma NamedAppend(init: seq<string>, part: string, k: string)
    ensures Named(init + [part], k) <==> Named(init, k) || NamesKey(part, k)
  {
    var all := init + [part];
    assert all[|init|] == part && forall i :: 0 <= i < |init| ==> all[i] == init[i];
  }

  lemma WinsAppend(init: seq<string>, part: string, k: string, v: string)
    requires Names(part, k, v) || (Wins(init, k, v) && !NamesKey(part, k))
    ensures Wins(init + [part], k, v)
  {
    var all := init + [part];
    if Names(part, k, v) {
      assert all[|init|] == part;
    } else {
      var i :| 0 <= i < |init| && Names(init[i], k, v) && forall j :: i < j < |init| ==> !NamesKey(init[j], k);
      assert all[i] == init[i];
      forall j | i < j < |all| ensures !NamesKey(all[j], k) {
        if j < |init| { assert all[j] == init[j]; }
      }
    }
  }

  /** A key is in the parsed set exactly when some part names it, and it has the value that the last such part gives. */
  lemma {:induction false} LastPartWins(parts: seq<string>, k: string)
    ensures k in ParseParts(parts) <==> Named(parts, k)
    ensures k in ParseParts(parts) ==> Wins(parts, k, ParseParts(parts)[k])
  {
    if parts != [] {
      var init, part := parts[..|parts| - 1], parts[|parts| - 1];
      assert parts == init + [part];
      LastPartWins(init, k);
      NamedAppend(init, part, k);
      PartNames(ParseParts(init), part, k);
      if k in ParseParts(parts) {
        WinsAppend(init, part, k, ParseParts(parts)[k]);
      }
    }
  }

  /** What Parse makes of any text, part by part between the commas. */
  lemma ParseAnswers(raw: string, k: string)
    ensures var m, parts := ParseSpec(raw), Split(raw);
            && (forall i :: 0 <= i < |parts| ==> ',' !in parts[i]) && Join(parts) == raw
            && (k in m <==> Named(parts, k)) && (k in m ==> Wins(parts, k, m[k]))
  {
    SplitHasNoCommas(raw);
    JoinSplit(raw);
    LastPartWins(Split(raw), k);
  }

  lemma {:induction false} JoinSplit(raw: string)
    ensures Split(raw) != [] && Join(Split(raw)) == raw
    decreases |raw|
  {
    var i := Index(raw, ',');
    IndexIsFirst(raw, ',');
    if i < |raw| {
      JoinSplit(raw[i + 1..]);
      var rest := Split(raw[i + 1..]);
      assert ([raw[..i]] + rest)[1..] == rest;
      assert raw == raw[..i] + [','] + raw[i + 1..];
    }
  }
}
