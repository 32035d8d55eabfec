/**
 The canonical JSON text that versions and hashes are taken over: compact, keys sorted, only quotes,
 backslashes and control characters escaped. It determines the value that was written.
 */
module CanonicalJson {
  import opened CanonicalDecimal

  // ----- strings -----

  function HexChar(n: nat): (c: char)
    requires n < 16
  {
    if n < 10 then '0' + n as char else 'a' + (n - 10) as char
  }

  lemma HexIsInjective(m: nat, n: nat)
    requires m < 16 && n < 16 && HexChar(m) == HexChar(n)
    ensures m == n
  {
  }

  /** One character inside a JSON string. */
  function Escape(c: char): (s: string)
    ensures s != "" && s[0] != '\"'
  {
    match c
    case '\"' => "\\\""
    case '\\' => "\\\\"
    case '\n' => "\\n"
    case '\r' => "\\r"
    case '\t' => "\\t"
    case _ =>
      if c as int == 8 then "\\b"
      else if c as int == 12 then "\\f"
      else if c < ' ' then "\\u00" + [HexChar(c as int / 16), HexChar(c as int % 16)]
      else [c]
  }

  /** What stands for itself after a backslash, and what a letter after it stands for. */
  function Unescape(letter: char): char {
    match letter
    case 'n' => '\n'
    case 'r' => '\r'
    case 't' => '\t'
    case 'b' => 8 as char
    case 'f' => 12 as char
    case _ => letter
  }

  lemma EscapeShape(c: char)
    ensures |Escape(c)| in {1, 2, 6}
    ensures |Escape(c)| == 1 ==> Escape(c) == [c] && c != '\\'
    ensures |Escape(c)| > 1 ==> Escape(c)[0] == '\\'
    ensures |Escape(c)| == 2 ==> Escape(c)[1] != 'u' && Unescape(Escape(c)[1]) == c
    ensures |Escape(c)| == 6 ==>
              && Escape(c)[1] == 'u' && c as int < 32
              && Escape(c)[4] == HexChar(c as int / 16) && Escape(c)[5] == HexChar(c as int % 16)
  {
  }

  lemma SplitAfter(p: string, s: string, x: string)
    requires x == p + s
    ensures x[|p|..] == s && forall i | 0 <= i < |p| :: x[i] == p[i]
  {
  }

  /** No escape is the beginning of another. */
  lemma EscapeIsPrefixCode(c: char, d: char, s: string, t: string)
    requires Escape(c) + s == Escape(d) + t
    ensures c == d && s == t
  {
    var x, p, q := Escape(c) + s, Escape(c), Escape(d);
    EscapeShape(c);
    EscapeShape(d);
    SplitAfter(p, s, x);
    SplitAfter(q, t, x);
    assert p[0] == x[0] == q[0];
    if |p| > 1 {
      assert p[1] == x[1] == q[1];
      if |p| == 6 {
        assert p[4] == q[4] && p[5] == q[5];
        HexIsInjective(c as int / 16, d as int / 16);
        HexIsInjective(c as int % 16, d as int % 16);
      }
    }
  }

  function Escaped(text: string): string {
    if text == "" then "" else Escape(text[0]) + Escaped(text[1..])
  }

  function Quote(text: string): (s: string)
    ensures s != "" && s[0] == '\"'
  {
    "\"" + Escaped(text) + "\""
  }

  /** The closing quote is found, and what is between the quotes is unescaped, in one way only. */
  lemma {:induction false} EscapedIsPrefixCode(a: string, b: string, s: string, t: string)
    requires Escaped(a) + ("\"" + s) == Escaped(b) + ("\"" + t)
    ensures a == b && s == t
  {
    var rest, other := "\"" + s, "\"" + t;
    if a == "" && b == "" {
      SplitAfter("\"", s, rest);
      SplitAfter("\"", t, other);
      assert Escaped(a) + rest == rest && Escaped(b) + other == other;
    } else if a == "" {
      EscapedBegins(b, other);
    } else if b == "" {
      EscapedBegins(a, rest);
    } else {
      EscapedBegins(a, rest);
      EscapedBegins(b, other);
      EscapeIsPrefixCode(a[0], b[0], Escaped(a[1..]) + rest, Escaped(b[1..]) + other);
      EscapedIsPrefixCode(a[1..], b[1..], s, t);
    }
  }

  lemma EscapedBegins(a: string, rest: string)
    requires a != ""
    ensures Escaped(a) + rest == Escape(a[0]) + (Escaped(a[1..]) + rest)
    ensures |Escaped(a) + rest| > 0 && (Escaped(a) + rest)[0] != '\"'
  {
  }

  lemma QuoteIsPrefixCode(a: string, b: string, s: string, t: string)
    requires Quote(a) + s == Quote(b) + t
    ensures a == b && s == t
  {
    var x, y := Escaped(a) + ("\"" + s), Escaped(b) + ("\"" + t);
    assert Quote(a) + s == "\"" + x && Quote(b) + t == "\"" + y;
    assert ("\"" + x)[1..] == x && ("\"" + y)[1..] == y;
    EscapedIsPrefixCode(a, b, s, t);
  }

  // ----- sorted keys -----

  /** Python's order of strings, character by character. */
  predicate Before(a: string, b: string) {
    a == "" || (b != "" && (a[0] < b[0] || (a[0] == b[0] && Before(a[1..], b[1..]))))
  }

  lemma {:induction false} BeforeIsTotal(a: string, b: string)
    ensures Before(a, b) || Before(b, a)
    ensures Before(a, b) && Before(b, a) ==> a == b
  {
    if a != "" && b != "" && a[0] == b[0] {
      BeforeIsTotal(a[1..], b[1..]);
      assert a == [a[0]] + a[1..] && b == [b[0]] + b[1..];
    }
  }

  lemma {:induction false} BeforeIsTransitive(a: string, b: string, c: string)
    requires Before(a, b) && Before(b, c)
    ensures Before(a, c)
  {
    if a != "" && a[0] == b[0] == c[0] { BeforeIsTransitive(a[1..], b[1..], c[1..]); }
  }

  lemma {:induction false} LeastExists(keys: set<string>) returns (least: string)
    requires keys != {}
    ensures least in keys && forall key | key in keys :: Before(least, key)
    decreases |keys|
  {
    var some :| some in keys;
    var rest := keys - {some};
    BeforeIsTotal(some, some);
    assert forall key | key in keys :: key == some || key in rest;
    if rest == {} {
      least := some;
    } else {
      var other := LeastExists(rest);
      BeforeIsTotal(some, other);
      least := if Before(some, other) then some else other;
      forall key | key in keys ensures Before(least, key) {
        if key in rest && Before(some, other) { BeforeIsTransitive(some, other, key); }
      }
    }
  }

  /** The keys of a dictionary in ascending order. */
  ghost function SortedKeys(keys: set<string>): (r: seq<string>)
    ensures |r| == |keys| && (forall key :: key in r <==> key in keys)
    ensures forall i, k | 0 <= i < k < |r| :: Before(r[i], r[k]) && r[i] != r[k]
    decreases |keys|
  {
    if keys == {} then []
    else
      LeastKey(keys);
      var least :| least in keys && forall key | key in keys :: Before(least, key);
      [least] + SortedKeys(keys - {least})
  }

  lemma LeastKey(keys: set<string>)
    requires keys != {}
    ensures exists least :: least in keys && forall key | key in keys :: Before(least, key)
  {
    var least := LeastExists(keys);
  }

  // ----- values -----

  function Integer(n: int): (s: string)
    ensures s != "" && (s[0] == '-' || IsDigit(s[0]))
  {
    if n < 0 then "-" + Digits(0 - n) else Digits(n)
  }

  /** json.dumps writes no decimals; the canonical value has none left. */
  predicate Writable(v: Value)
    decreases v
  {
    match v
    case Amount(_) => false
    case List(items) => forall i | 0 <= i < |items| :: Writable(items[i])
    case Dict(entries) => forall key | key in entries :: Writable(entries[key])
    case _ => true
  }

  ghost function Print(v: Value): (s: string)
    requires Writable(v)
    ensures s != "" && s[0] !in {',', ']', '}'}
    decreases v, 1, 0
  {
    match v
    case Null => "null"
    case Flag(b) => if b then "true" else "false"
    case Text(s) => Quote(s)
    case Number(n) => Integer(n)
    case List(items) => if items == [] then "[]" else "[" + Print(items[0]) + PrintItems(items[1..])
    case Dict(entries) =>
      var keys := SortedKeys(entries.Keys);
      if keys == [] then "{}" else "{" + PrintEntry(v, keys[0]) + PrintEntries(v, keys[1..])
  }

  /** The rest of a list, from the comma or the closing bracket on. */
  ghost function PrintItems(items: seq<Value>): (s: string)
    requires forall i | 0 <= i < |items| :: Writable(items[i])
    ensures s != "" && s[0] == (if items == [] then ']' else ',')
    decreases items, 0, 0
  {
    if items == [] then "]" else "," + Print(items[0]) + PrintItems(items[1..])
  }

  ghost function PrintEntry(v: Value, key: string): (s: string)
    requires v.Dict? && Writable(v) && key in v.entries
    decreases v, 0, 0
  {
    Quote(key) + ":" + Print(v.entries[key])
  }

  ghost function PrintEntries(v: Value, keys: seq<string>): (s: string)
    requires v.Dict? && Writable(v) && forall i | 0 <= i < |keys| :: keys[i] in v.entries
    ensures s != "" && s[0] == (if keys == [] then '}' else ',')
    decreases v, 0, 1 + |keys|
  {
    if keys == [] then "}" else "," + PrintEntry(v, keys[0]) + PrintEntries(v, keys[1..])
  }

  // ----- one text, one value -----

  /** What can follow a value in JSON. */
  predicate Stop(s: string) {
    s == "" || s[0] in {',', ']', '}'}
  }

  lemma {:induction false} DigitsEnd(p: string, q: string, s: string, t: string)
    requires AllDigits(p) && AllDigits(q) && Stop(s) && Stop(t) && p + s == q + t
    ensures p == q && s == t
  {
    if p != "" && q != "" {
      assert (p + s)[0] == p[0] && (q + t)[0] == q[0];
      assert (p + s)[1..] == p[1..] + s && (q + t)[1..] == q[1..] + t;
      DigitsEnd(p[1..], q[1..], s, t);
    } else {
      assert "" + s == s && "" + t == t;
    }
  }

  lemma NaturalIsPrefixCode(m: nat, n: nat, s: string, t: string)
    requires Stop(s) && Stop(t) && Digits(m) + s == Digits(n) + t
    ensures m == n && s == t
  {
    DigitsEnd(Digits(m), Digits(n), s, t);
    DigitsParse(m);
    DigitsParse(n);
  }

  /** The same first character, dropped from two texts. */
  lemma DropFirst(c: string, p: string, q: string, s: string, t: string)
    requires |c| == 1 && (c + p) + s == (c + q) + t
    ensures p + s == q + t
  {
    assert (c + p) + s == c + (p + s) && (c + q) + t == c + (q + t);
    SplitAfter(c, p + s, (c + p) + s);
    SplitAfter(c, q + t, (c + q) + t);
  }

  lemma SignsAgree(m: int, n: int, s: string, t: string)
    requires Integer(m) + s == Integer(n) + t
    ensures m < 0 <==> n < 0
  {
    assert (Integer(m) + s)[0] == Integer(m)[0] && (Integer(n) + t)[0] == Integer(n)[0];
    assert m >= 0 ==> IsDigit(Digits(m)[0]);
    assert n >= 0 ==> IsDigit(Digits(n)[0]);
  }

  lemma IntegerIsPrefixCode(m: int, n: int, s: string, t: string)
    requires Stop(s) && Stop(t) && Integer(m) + s == Integer(n) + t
    ensures m == n && s == t
  {
    SignsAgree(m, n, s, t);
    if m < 0 {
      DropFirst("-", Digits(0 - m), Digits(0 - n), s, t);
      NaturalIsPrefixCode(0 - m, 0 - n, s, t);
    } else {
      NaturalIsPrefixCode(m, n, s, t);
    }
  }

  /** The first character tells what kind of value it is. */
  function Kind(c: char): nat {
    match c
    case 'n' => 0 case 't' => 1 case 'f' => 2 case '\"' => 3 case '[' => 4 case '{' => 5 case _ => 6
  }

  lemma KindOf(v: Value)
    requires Writable(v)
    ensures Kind(Print(v)[0]) == match v
                                 case Null => 0
                                 case Flag(b) => if b then 1 else 2
                                 case Text(_) => 3
                                 case List(_) => 4
                                 case Dict(_) => 5
                                 case _ => 6
  {
  }

  lemma SameFirst(p: string, q: string, s: string, t: string)
    requires p != "" && q != "" && p + s == q + t
    ensures p[0] == q[0]
  {
    assert (p + s)[0] == p[0] && (q + t)[0] == q[0];
  }

  lemma SameKind(a: Value, b: Value, s: string, t: string)
    requires Writable(a) && Writable(b) && Print(a) + s == Print(b) + t
    ensures Print(a)[0] == Print(b)[0]
    ensures a.Null? == b.Null? && a.Flag? == b.Flag? && a.Text? == b.Text?
    ensures a.Number? == b.Number? && a.List? == b.List? && a.Dict? == b.Dict?
    ensures a.Flag? ==> a == b
  {
    SameFirst(Print(a), Print(b), s, t);
    KindOf(a);
    KindOf(b);
  }

  /**
   Writing is injective, and more: where a value is followed by a comma, a bracket or nothing, the text tells
   where the value ends and which value it was.
   */
  lemma {:induction false} PrintIsPrefixCode(a: Value, b: Value, s: string, t: string)
    requires Writable(a) && Writable(b) && Stop(s) && Stop(t)
    requires Print(a) + s == Print(b) + t
    ensures a == b && s == t
    decreases a, 1, 0
  {
    SameKind(a, b, s, t);
    if a.Text? {
      QuoteIsPrefixCode(a.s, b.s, s, t);
    } else if a.Number? {
      IntegerIsPrefixCode(a.n, b.n, s, t);
    } else if a.List? {
      ListIsPrefixCode(a.items, b.items, s, t);
    } else if a.Dict? {
      DictIsPrefixCode(a, b, s, t);
    } else {
      assert a == b;
      SplitAfter(Print(a), s, Print(a) + s);
      SplitAfter(Print(a), t, Print(a) + s);
    }
  }

  lemma Regroup(p: string, q: string, r: string)
    ensures (p + q) + r == p + (q + r)
  {
  }

  lemma Rejoin<T>(x: seq<T>, y: seq<T>)
    requires x != [] && y != [] && x[0] == y[0] && x[1..] == y[1..]
    ensures x == y
  {
    assert x == [x[0]] + x[1..] && y == [y[0]] + y[1..];
  }

  // ----- lists -----

  /** The text of a list after its opening bracket. */
  ghost function InList(items: seq<Value>): string
    requires forall i | 0 <= i < |items| :: Writable(items[i])
  {
    if items == [] then "]" else Print(items[0]) + PrintItems(items[1..])
  }

  lemma ListText(items: seq<Value>)
    requires forall i | 0 <= i < |items| :: Writable(items[i])
    ensures Print(List(items)) == "[" + InList(items)
  {
  }

  lemma {:induction false} ListIsPrefixCode(x: seq<Value>, y: seq<Value>, s: string, t: string)
    requires forall i | 0 <= i < |x| :: Writable(x[i])
    requires forall i | 0 <= i < |y| :: Writable(y[i])
    requires Print(List(x)) + s == Print(List(y)) + t
    ensures x == y && s == t
    decreases x, 2, 0
  {
    ListText(x);
    ListText(y);
    DropFirst("[", InList(x), InList(y), s, t);
    if x == [] || y == [] {
      SameFirst(InList(x), InList(y), s, t);
      SplitAfter("]", s, "]" + s);
      SplitAfter("]", t, "]" + t);
    } else {
      ElementIsPrefixCode(x, y, s, t);
    }
  }

  lemma {:induction false} ElementIsPrefixCode(x: seq<Value>, y: seq<Value>, s: string, t: string)
    requires x != [] && y != []
    requires forall i | 0 <= i < |x| :: Writable(x[i])
    requires forall i | 0 <= i < |y| :: Writable(y[i])
    requires (Print(x[0]) + PrintItems(x[1..])) + s == (Print(y[0]) + PrintItems(y[1..])) + t
    ensures x == y && s == t
    decreases x, 1, 0
  {
    var p, q := PrintItems(x[1..]), PrintItems(y[1..]);
    Regroup(Print(x[0]), p, s);
    Regroup(Print(y[0]), q, t);
    PrintIsPrefixCode(x[0], y[0], p + s, q + t);
    ItemsArePrefixCode(x[1..], y[1..], s, t);
    Rejoin(x, y);
  }

  lemma {:induction false} ItemsArePrefixCode(x: seq<Value>, y: seq<Value>, s: string, t: string)
    requires forall i | 0 <= i < |x| :: Writable(x[i])
    requires forall i | 0 <= i < |y| :: Writable(y[i])
    requires PrintItems(x) + s == PrintItems(y) + t
    ensures x == y && s == t
    decreases x, 2, 0
  {
    SameFirst(PrintItems(x), PrintItems(y), s, t);
    if x == [] {
      SplitAfter("]", s, "]" + s);
      SplitAfter("]", t, "]" + t);
    } else {
      ItemsText(x);
      ItemsText(y);
      DropFirst(",", Print(x[0]) + PrintItems(x[1..]), Print(y[0]) + PrintItems(y[1..]), s, t);
      ElementIsPrefixCode(x, y, s, t);
    }
  }

  lemma ItemsText(items: seq<Value>)
    requires items != [] && forall i | 0 <= i < |items| :: Writable(items[i])
    ensures PrintItems(items) == "," + (Print(items[0]) + PrintItems(items[1..]))
  {
  }

  // ----- dictionaries -----

  ghost function InDict(v: Value, keys: seq<string>): string
    requires v.Dict? && Writable(v) && forall i | 0 <= i < |keys| :: keys[i] in v.entries
  {
    if keys == [] then "}" else PrintEntry(v, keys[0]) + PrintEntries(v, keys[1..])
  }

  lemma DictText(v: Value)
    requires v.Dict? && Writable(v)
    ensures Print(v) == "{" + InDict(v, SortedKeys(v.entries.Keys))
  {
  }

  /** Two dictionaries with the same entries under the same keys. */
  lemma SameEntries(x: map<string, Value>, y: map<string, Value>, keys: seq<string>)
    requires forall key :: key in keys <==> key in x.Keys
    requires forall key :: key in keys <==> key in y.Keys
    requires forall i | 0 <= i < |keys| :: x[keys[i]] == y[keys[i]]
    ensures x == y
  {
    forall key | key in x ensures key in y && x[key] == y[key] {
      assert key in keys;
    }
  }

  lemma {:induction false} DictIsPrefixCode(a: Value, b: Value, s: string, t: string)
    requires a.Dict? && b.Dict? && Writable(a) && Writable(b)
    requires Print(a) + s == Print(b) + t
    ensures a == b && s == t
    decreases a, 0, 2, 0
  {
    var p, q := SortedKeys(a.entries.Keys), SortedKeys(b.entries.Keys);
    DictText(a);
    DictText(b);
    DropFirst("{", InDict(a, p), InDict(b, q), s, t);
    InDictIsPrefixCode(a, b, p, q, s, t);
    SameEntries(a.entries, b.entries, p);
  }

  lemma {:induction false} InDictIsPrefixCode(a: Value, b: Value, p: seq<string>, q: seq<string>, s: string, t: string)
    requires a.Dict? && b.Dict? && Writable(a) && Writable(b)
    requires forall i | 0 <= i < |p| :: p[i] in a.entries
    requires forall i | 0 <= i < |q| :: q[i] in b.entries
    requires InDict(a, p) + s == InDict(b, q) + t
    ensures p == q && s == t && forall i | 0 <= i < |p| :: a.entries[p[i]] == b.entries[p[i]]
    decreases a, 0, 1, 0
  {
    if p == [] || q == [] {
      SameFirst(InDict(a, p), InDict(b, q), s, t);
      SplitAfter("}", s, "}" + s);
      SplitAfter("}", t, "}" + t);
    } else {
      EntryIsPrefixCode(a, b, p, q, s, t);
    }
  }

  lemma {:induction false} EntryIsPrefixCode(a: Value, b: Value, p: seq<string>, q: seq<string>, s: string, t: string)
    requires a.Dict? && b.Dict? && Writable(a) && Writable(b) && p != [] && q != []
    requires forall i | 0 <= i < |p| :: p[i] in a.entries
    requires forall i | 0 <= i < |q| :: q[i] in b.entries
    requires (PrintEntry(a, p[0]) + PrintEntries(a, p[1..])) + s == (PrintEntry(b, q[0]) + PrintEntries(b, q[1..])) + t
    ensures p == q && s == t && forall i | 0 <= i < |p| :: a.entries[p[i]] == b.entries[p[i]]
    decreases a, 0, 0, 2 * |p|
  {
    var x, y := PrintEntries(a, p[1..]) + s, PrintEntries(b, q[1..]) + t;
    Regroup(PrintEntry(a, p[0]), PrintEntries(a, p[1..]), s);
    Regroup(PrintEntry(b, q[0]), PrintEntries(b, q[1..]), t);
    KeyIsPrefixCode(p[0], q[0], Print(a.entries[p[0]]), Print(b.entries[q[0]]), x, y);
    PrintIsPrefixCode(a.entries[p[0]], b.entries[q[0]], x, y);
    EntriesArePrefixCode(a, b, p[1..], q[1..], s, t);
    Rejoin(p, q);
  }

  lemma KeyIsPrefixCode(k: string, l: string, v: string, w: string, x: string, y: string)
    requires (Quote(k) + ":" + v) + x == (Quote(l) + ":" + w) + y
    ensures k == l && v + x == w + y
  {
    KeyText(k, v, x);
    KeyText(l, w, y);
    QuoteIsPrefixCode(k, l, (":" + v) + x, (":" + w) + y);
    DropFirst(":", v, w, x, y);
  }

  lemma KeyText(k: string, v: string, x: string)
    ensures (Quote(k) + ":" + v) + x == Quote(k) + ((":" + v) + x)
  {
    Regroup(Quote(k), ":", v);
    Regroup(Quote(k), ":" + v, x);
  }

  lemma {:induction false} EntriesArePrefixCode(a: Value, b: Value, p: seq<string>, q: seq<string>, s: string, t: string)
    requires a.Dict? && b.Dict? && Writable(a) && Writable(b)
    requires forall i | 0 <= i < |p| :: p[i] in a.entries
    requires forall i | 0 <= i < |q| :: q[i] in b.entries
    requires PrintEntries(a, p) + s == PrintEntries(b, q) + t
    ensures p == q && s == t && forall i | 0 <= i < |p| :: a.entries[p[i]] == b.entries[p[i]]
    decreases a, 0, 0, 1 + 2 * |p|
  {
    SameFirst(PrintEntries(a, p), PrintEntries(b, q), s, t);
    if p == [] {
      SplitAfter("}", s, "}" + s);
      SplitAfter("}", t, "}" + t);
    } else {
      EntriesText(a, p);
      EntriesText(b, q);
      DropFirst(",", PrintEntry(a, p[0]) + PrintEntries(a, p[1..]), PrintEntry(b, q[0]) + PrintEntries(b, q[1..]), s, t);
      EntryIsPrefixCode(a, b, p, q, s, t);
    }
  }

  lemma EntriesText(v: Value, keys: seq<string>)
    requires v.Dict? && Writable(v) && keys != [] && forall i | 0 <= i < |keys| :: keys[i] in v.entries
    ensures PrintEntries(v, keys) == "," + (PrintEntry(v, keys[0]) + PrintEntries(v, keys[1..]))
  {
  }

  // ----- the promise -----

  lemma {:induction false} CanonicalIsWritable(v: Value)
    ensures Writable(Canonical(v))
    decreases v
  {
    match v {
      case List(items) =>
        forall i | 0 <= i < |items| ensures Writable(Canonical(items[i])) {
          CanonicalIsWritable(items[i]);
        }
      case Dict(entries) =>
        forall key | key in entries ensures Writable(Canonical(entries[key])) {
          CanonicalIsWritable(entries[key]);
        }
      case _ =>
    }
  }

  /** canonical_json_bytes, before its encoding in UTF-8. */
  ghost function CanonicalJson(v: Value): string {
    CanonicalIsWritable(v);
    Print(Canonical(v))
  }

  /**
   Two values have the same canonical JSON exactly when they mean the same: no two different values share
   a text, and exponents, padding, zero signs and the order of keys never make a difference.
   */
  lemma SameJsonIffSameMeaning(a: Value, b: Value)
    ensures CanonicalJson(a) == CanonicalJson(b) <==> SameMeaning(a, b)
  {
    CanonicalIsWritable(a);
    CanonicalIsWritable(b);
    MatchesIffSameMeaning(a, b);
    if CanonicalJson(a) == CanonicalJson(b) {
      assert CanonicalJson(a) + "" == CanonicalJson(b) + "";
      PrintIsPrefixCode(Canonical(a), Canonical(b), "", "");
    }
  }
}
