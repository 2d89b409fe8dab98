/** The names of the log files: `naruto.aof.` and a decimal index. The other modules speak of files by index; this
    one says what that abstracts from. */
module AofNames {
  import opened Wire
  import opened Messages
  import Aof

  const PREFIX: string := "naruto.aof."
  const INT_MAX: nat := 0x7FFF_FFFF

  function Digit(d: nat): char
    requires d < 10
  {
    "0123456789"[d]
  }

  predicate IsDigit(ch: char) {
    '0' <= ch <= '9'
  }

  function DigitValue(ch: char): nat
    requires IsDigit(ch)
  {
    ch as int - '0' as int
  }

  /** `std::to_string` of an `int`. */
  function Decimal(n: nat): string {
    if n < 10 then [Digit(n)] else Decimal(n / 10) + [Digit(n % 10)]
  }

  function ToString(i: int): string {
    if i < 0 then "-" + Decimal(-i) else Decimal(i)
  }

  function GenAofFilename(idx: nat): string {
    PREFIX + ToString(idx)
  }

  /** The number the leading digits of a string spell, following the digits that spell `acc`. */
  function LeadingNumber(s: string, acc: nat): nat {
    if s == [] || !IsDigit(s[0]) then acc else LeadingNumber(s[1..], 10 * acc + DigitValue(s[0]))
  }

  predicate IsSpace(ch: char) {
    ch == ' ' || '\t' <= ch <= '\r'
  }

  /** `std::stoi`; `None` is an exception: no digits, or out of the range of `int`. What follows the digits is
      ignored. */
  function Stoi(s: string): (r: Option<int>)
    ensures r.Some? ==> r.value <= INT_MAX && -r.value <= INT_MAX + 1
  {
    if s != [] && IsSpace(s[0]) then Stoi(s[1..])
    else
      var t := if s != [] && (s[0] == '-' || s[0] == '+') then s[1..] else s;
      if t == [] || !IsDigit(t[0]) then None
      else
        var v := LeadingNumber(t, 0);
        var i := if s[0] == '-' then -(v as int) else v;
        if i <= INT_MAX && -i <= INT_MAX + 1 then Some(i) else None
  }

  /** What follows the last dot. */
  function Extension(v: string): Option<string> {
    if v == [] then None
    else
      var e := Extension(v[1..]);
      if e.Some? then e else if v[0] == '.' then Some(v[1..]) else None
  }

  /** The index in a name; -1 for a name without a dot. An exception escapes to the caller. */
  function ParseFileName(v: string): Option<int> {
    var e := Extension(v);
    if e.None? then Some(-1) else Stoi(e.value)
  }

  /** The name after a name; empty for a name whose index is -1. */
  function NextAof(name: string): Option<string> {
    var i := ParseFileName(name);
    if i.None? then None else if i.value == -1 then Some("") else Some(PREFIX + ToString(i.value + 1))
  }

  lemma {:induction false} DecimalIsDigits(n: nat)
    ensures Decimal(n) != [] && forall ch :: ch in Decimal(n) ==> IsDigit(ch)
  {
    if n >= 10 {
      DecimalIsDigits(n / 10);
    }
  }

  lemma {:induction false} NumberAppend(s: string, acc: nat, d: nat)
    requires d < 10 && forall ch :: ch in s ==> IsDigit(ch)
    ensures LeadingNumber(s + [Digit(d)], acc) == 10 * LeadingNumber(s, acc) + d
    decreases |s|
  {
    if s == [] {
      assert ([] + [Digit(d)])[1..] == [];
    } else {
      assert s[0] in s && (s + [Digit(d)])[1..] == s[1..] + [Digit(d)];
      NumberAppend(s[1..], 10 * acc + DigitValue(s[0]), d);
    }
  }

  lemma {:induction false} DecimalValue(n: nat)
    ensures LeadingNumber(Decimal(n), 0) == n
  {
    if n < 10 {
      NumberAppend([], 0, n);
      assert [] + [Digit(n)] == [Digit(n)];
    } else {
      DecimalValue(n / 10);
      DecimalIsDigits(n / 10);
      NumberAppend(Decimal(n / 10), 0, n % 10);
    }
  }

  // ---- What std::stoi reads: spaces, a sign, digits, and anything ----

  predicate AllSpaces(w: string) {
    forall ch :: ch in w ==> IsSpace(ch)
  }

  predicate IsSign(sign: string) {
    sign == "" || sign == "-" || sign == "+"
  }

  lemma {:induction false} SpacesSkipped(w: string, s: string)
    requires AllSpaces(w)
    ensures Stoi(w + s) == Stoi(s)
  {
    if w == [] {
      assert w + s == s;
    } else {
      assert w[0] in w && (w + s)[0] == w[0] && (w + s)[1..] == w[1..] + s;
      SpacesSkipped(w[1..], s);
    }
  }

  lemma {:induction false} NumberEnds(s: string, rest: string, acc: nat)
    requires forall ch :: ch in s ==> IsDigit(ch)
    requires rest == [] || !IsDigit(rest[0])
    ensures LeadingNumber(s + rest, acc) == LeadingNumber(s, acc)
    decreases |s|
  {
    if s == [] {
      assert s + rest == rest;
    } else {
      assert s[0] in s && (s + rest)[0] == s[0] && (s + rest)[1..] == s[1..] + rest;
      NumberEnds(s[1..], rest, 10 * acc + DigitValue(s[0]));
    }
  }

  lemma SignRead(sign: string, d: string)
    requires IsSign(sign) && d != [] && IsDigit(d[0])
    ensures var v := LeadingNumber(d, 0);
            var i := if sign == "-" then -(v as int) else v;
            Stoi(sign + d) == if i <= INT_MAX && -i <= INT_MAX + 1 then Some(i) else None
  {
    hide LeadingNumber;
    if sign == "" {
      assert sign + d == d;
    } else {
      assert (sign + d)[0] == sign[0] && (sign + d)[1..] == d;
    }
  }

  /** With digits in their place it is the number they spell, negated by a minus, if that is an `int`, ... */
  lemma StoiReads(w: string, sign: string, n: nat, rest: string)
    requires AllSpaces(w) && IsSign(sign) && (rest == [] || !IsDigit(rest[0]))
    ensures var i := if sign == "-" then -(n as int) else n;
            Stoi(w + (sign + (Decimal(n) + rest))) == if i <= INT_MAX && -i <= INT_MAX + 1 then Some(i) else None
  {
    var d := Decimal(n) + rest;
    DecimalIsDigits(n);
    DecimalValue(n);
    hide Decimal;
    NumberEnds(Decimal(n), rest, 0);
    assert d[0] == Decimal(n)[0] && Decimal(n)[0] in Decimal(n);
    hide LeadingNumber, Stoi;
    SpacesSkipped(w, sign + d);
    SignRead(sign, d);
  }

  /** ... and without them it throws. */
  lemma StoiThrows(w: string, sign: string, rest: string)
    requires AllSpaces(w) && IsSign(sign)
    requires rest == [] || (!IsDigit(rest[0]) && (sign != "" || (!IsSpace(rest[0]) && rest[0] != '-' && rest[0] != '+')))
    ensures Stoi(w + (sign + rest)) == None
  {
    SpacesSkipped(w, sign + rest);
    if sign == "" {
      assert sign + rest == rest;
    } else {
      assert (sign + rest)[0] == sign[0] && (sign + rest)[1..] == rest;
    }
  }

  /** The name after any name has the next index, throws if the name does, and is empty for index -1. */
  lemma NextIndex(name: string)
    ensures NextAof(name).None? <==> ParseFileName(name).None?
    ensures ParseFileName(name) == Some(-1) ==> NextAof(name) == Some("")
    ensures var i := ParseFileName(name);
            i.Some? && i.value != -1 && i.value < INT_MAX ==>
              NextAof(name).Some? && ParseFileName(NextAof(name).value) == Some(i.value + 1)
  {
    var i := ParseFileName(name);
    if i.Some? && i.value != -1 && i.value < INT_MAX {
      ParsedInRange(name);
      IndexRead(i.value + 1);
    }
    hide ParseFileName, ToString;
  }

  lemma ParsedInRange(name: string)
    ensures var i := ParseFileName(name); i.Some? ==> i.value <= INT_MAX && -i.value <= INT_MAX + 1
  {
  }

  lemma IndexRead(i: int)
    requires i <= INT_MAX && -i <= INT_MAX + 1
    ensures ParseFileName(PREFIX + ToString(i)) == Some(i)
  {
    var n: nat, sign := if i < 0 then -i else i, if i < 0 then "-" else "";
    IndexForm(i, n, sign);
    StoiReads([], sign, n, []);
    ExtensionAfter("naruto.aof", ToString(i));
    hide Decimal, Stoi, Extension, ToString;
  }

  lemma IndexForm(i: int, n: nat, sign: string)
    requires if i < 0 then n == -i && sign == "-" else n == i && sign == ""
    ensures ToString(i) == [] + (sign + (Decimal(n) + [])) && '.' !in ToString(i)
    ensures PREFIX + ToString(i) == "naruto.aof" + "." + ToString(i)
  {
    DecimalIsDigits(n);
    hide Decimal;
    assert Decimal(n) + [] == Decimal(n);
    assert !IsDigit('.');
  }

  lemma {:induction false} ExtensionAfter(a: string, b: string)
    requires '.' !in b
    ensures Extension(b) == None
    ensures Extension(a + "." + b) == Some(b)
    decreases |a|, |b|
  {
    if b != [] {
      NoDot(b);
    }
    if a == [] {
      assert (a + "." + b)[1..] == b;
    } else {
      ExtensionAfter(a[1..], b);
      assert (a + "." + b)[1..] == a[1..] + "." + b;
    }
  }

  lemma {:induction false} NoDot(b: string)
    requires '.' !in b
    ensures Extension(b) == None
  {
    if b != [] {
      NoDot(b[1..]);
    }
  }

  /** A generated name gives back its index, as long as that is an `int`; after that it throws. */
  lemma ParseGenerated(idx: nat)
    ensures ParseFileName(GenAofFilename(idx)) == if idx <= INT_MAX then Some(idx) else None
  {
    var d := Decimal(idx);
    DecimalIsDigits(idx);
    DecimalValue(idx);
    ExtensionAfter("naruto.aof", d);
    assert PREFIX + d == "naruto.aof" + "." + d;
    assert d[0] in d;
  }

  /** So different files have different names, and the name after that of file `idx` is that of file `idx + 1`. */
  lemma NextOfGenerated(idx: nat, other: nat)
    requires idx < INT_MAX && other <= INT_MAX
    ensures NextAof(GenAofFilename(idx)) == Some(GenAofFilename(idx + 1))
    ensures GenAofFilename(idx) == GenAofFilename(other) ==> idx == other
  {
    ParseGenerated(idx);
    ParseGenerated(other);
    hide ParseFileName, Decimal;
  }

  // ---- The files of a directory ----

  /** The directory that holds log files `0 .. n`. */
  ghost predicate Generated(dir: set<string>, n: nat) {
    && n <= INT_MAX
    && forall v :: v in dir <==> exists i: nat :: i < n && v == GenAofFilename(i)
  }

  /** Moves a name on to the next file if that exists. */
  method HasNextAof(dir: set<string>, name: string) returns (has: bool, next: string, throws: bool)
    ensures throws == NextAof(name).None?
    ensures has <==> NextAof(name).Some? && NextAof(name).value != "" && NextAof(name).value in dir
    ensures next == if has then NextAof(name).value else name
  {
    has, next, throws := false, name, false;
    var n := NextAof(name);
    if n.None? {
      throws := true;
    } else if n.value != "" && n.value in dir {
      has, next := true, n.value;
    }
  }

  /** In a directory of generated names the step goes from file `idx` to file `idx + 1` exactly if there is one. */
  lemma NextInDirectory(dir: set<string>, n: nat, idx: nat)
    requires Generated(dir, n) && idx < n
    ensures var next := NextAof(GenAofFilename(idx));
            next == Some(GenAofFilename(idx + 1)) && (next.value in dir <==> idx + 1 < n)
  {
    NextOfGenerated(idx, idx);
    hide NextAof, ParseFileName, GenAofFilename;
    if GenAofFilename(idx + 1) in dir {
      var i: nat :| i < n && GenAofFilename(idx + 1) == GenAofFilename(i);
      NextOfGenerated(i, idx + 1);
    }
  }

  /** Only names with "aof" in them are looked at. */
  predicate Candidate(v: string) {
    |v| >= 3 && (v[..3] == "aof" || Candidate(v[1..]))
  }

  /** It looks at exactly the names with "aof" somewhere. */
  lemma {:induction false} CandidateExact(v: string)
    ensures Candidate(v) <==> exists i :: 0 <= i < |v| - 2 && v[i] == 'a' && v[i + 1] == 'o' && v[i + 2] == 'f'
  {
    if |v| >= 3 {
      CandidateExact(v[1..]);
      assert v[..3] == [v[0], v[1], v[2]];
      if Candidate(v[1..]) {
        var i :| 0 <= i < |v[1..]| - 2 && v[1..][i] == 'a' && v[1..][i + 1] == 'o' && v[1..][i + 2] == 'f';
        assert v[i + 1] == 'a';
      }
      forall i | 1 <= i < |v| - 2 && v[i] == 'a' && v[i + 1] == 'o' && v[i + 2] == 'f'
        ensures Candidate(v[1..])
      {
        assert v[1..][i - 1] == 'a' && v[1..][i] == 'o' && v[1..][i + 1] == 'f';
      }
    }
  }

  /** What is listed: names with an index, from that of `after` on if it has one. */
  predicate Listed(v: string, after: string) {
    && Candidate(v) && ParseFileName(v).Some? && ParseFileName(v).value != -1
    && (after != "" && ParseFileName(after).Some? && ParseFileName(after).value != -1 ==>
          ParseFileName(after).value <= ParseFileName(v).value)
  }

  /** Each name once, in the order of the indices; the order of names with the same index is left to the sort. */
  ghost predicate ListsNames(dir: set<string>, after: string, list: seq<string>) {
    (forall v :: v in list <==> v in dir && Listed(v, after)) && NamesOrdered(list)
  }

  ghost predicate NamesOrdered(list: seq<string>) {
    forall i, j :: 0 <= i < j < |list| ==> list[i] != list[j] && IndexOf(list[i]) <= IndexOf(list[j])
  }

  function IndexOf(v: string): int {
    var i := ParseFileName(v);
    if i.Some? then i.value else -1
  }

  /** Lists the log files of a directory of any names. A single candidate name without a readable index makes it throw. */
  method ListAof(dir: set<string>, after: string) returns (list: seq<string>, throws: bool)
    ensures throws <==> (after != "" && ParseFileName(after).None?) ||
                        (exists v :: v in dir && Candidate(v) && ParseFileName(v).None?)
    ensures !throws ==> ListsNames(dir, after, list)
  {
    hide ParseFileName, Candidate;
    list, throws := [], after != "" && ParseFileName(after).None?;
    var unread := dir;
    while unread != {} && !throws
      invariant unread <= dir
      invariant throws ==> (after != "" && ParseFileName(after).None?) ||
                           exists v :: v in dir && Candidate(v) && ParseFileName(v).None?
      invariant !throws ==> !(after != "" && ParseFileName(after).None?) && ListsNames(dir - unread, after, list)
      invariant !throws ==> forall v :: v in dir - unread && Candidate(v) ==> ParseFileName(v).Some?
      decreases unread
    {
      var v :| v in unread;
      ghost var seen := dir - unread;
      unread := unread - {v};
      assert dir - unread == seen + {v};
      if Candidate(v) {
        if ParseFileName(v).None? {
          throws := true;
        } else if Listed(v, after) {
          list := InsertName(seen, after, list, v);
        }
      }
    }
    assert !throws ==> dir - unread == dir;
  }

  method InsertName(ghost dir: set<string>, ghost after: string, list: seq<string>, v: string) returns (r: seq<string>)
    requires ListsNames(dir, after, list) && v !in dir && Listed(v, after)
    ensures ListsNames(dir + {v}, after, r)
  {
    hide ParseFileName, Listed, IndexOf;
    var k := 0;
    while k < |list| && IndexOf(list[k]) <= IndexOf(v)
      invariant k <= |list| && forall i :: 0 <= i < k ==> IndexOf(list[i]) <= IndexOf(v)
    {
      k := k + 1;
    }
    r := list[..k] + [v] + list[k..];
    assert list == list[..k] + list[k..];
    forall i | k <= i < |list|
      ensures IndexOf(v) <= IndexOf(list[i])
    {
      assert IndexOf(list[k]) <= IndexOf(list[i]);
    }
    InsertedNames(dir, after, list, k, v);
  }

  lemma InsertedNames(dir: set<string>, after: string, list: seq<string>, k: nat, v: string)
    requires ListsNames(dir, after, list) && k <= |list| && v !in dir && Listed(v, after)
    requires forall i :: 0 <= i < k ==> IndexOf(list[i]) <= IndexOf(v)
    requires forall i :: k <= i < |list| ==> IndexOf(v) <= IndexOf(list[i])
    ensures ListsNames(dir + {v}, after, list[..k] + [v] + list[k..])
  {
    hide Listed, IndexOf, NamesOrdered;
    var r := list[..k] + [v] + list[k..];
    assert list == list[..k] + list[k..];
    forall x
      ensures x in r <==> x in dir + {v} && Listed(x, after)
    {
      assert x in r <==> x == v || x in list;
    }
    InsertedOrder(list, k, v);
  }

  lemma InsertedOrder(list: seq<string>, k: nat, v: string)
    requires NamesOrdered(list) && k <= |list| && v !in list
    requires forall i :: 0 <= i < k ==> IndexOf(list[i]) <= IndexOf(v)
    requires forall i :: k <= i < |list| ==> IndexOf(v) <= IndexOf(list[i])
    ensures NamesOrdered(list[..k] + [v] + list[k..])
  {
    hide IndexOf;
    var r := list[..k] + [v] + list[k..];
    forall i | 0 <= i < |r|
      ensures r[i] == if i < k then list[i] else if i == k then v else list[i - 1]
    {
    }
    forall i, j | 0 <= i < j < |r|
      ensures r[i] != r[j] && IndexOf(r[i]) <= IndexOf(r[j])
    {
      if i == k {
        assert r[j] == list[j - 1] && list[j - 1] in list;
      } else if j == k {
        assert r[i] == list[i] && list[i] in list;
      }
    }
  }

  lemma {:induction false} CandidateAfter(a: string, b: string)
    ensures Candidate(a + "aof" + b)
  {
    if a == [] {
      assert (a + "aof" + b)[..3] == "aof";
    } else {
      CandidateAfter(a[1..], b);
      assert (a + "aof" + b)[1..] == a[1..] + "aof" + b;
    }
  }

  lemma GeneratedName(i: nat)
    requires i <= INT_MAX
    ensures var v := GenAofFilename(i); v != "" && ParseFileName(v) == Some(i) && Candidate(v) && IndexOf(v) == i
  {
    ParseGenerated(i);
    CandidateAfter("naruto.", "." + ToString(i));
    assert PREFIX + ToString(i) == "naruto." + "aof" + ("." + ToString(i));
    hide ParseFileName, Candidate;
  }

  /** In a directory of generated names nothing throws, and the list from file `k` on is files `k, k + 1, ...` in order;
      without a name to start from it is all of them. So the directory is the map from indices to files the other modules
      speak of. */
  lemma ListGenerated(dir: set<string>, n: nat, after: Option<nat>, list: seq<string>)
    requires Generated(dir, n) && (after.Some? ==> after.value < n)
    requires ListsNames(dir, if after.None? then "" else GenAofFilename(after.value), list)
    ensures forall v :: v in dir ==> ParseFileName(v).Some?
    ensures var k := if after.None? then 0 else after.value;
            list == seq(n - k, i requires 0 <= i => GenAofFilename(k + i))
  {
    hide ParseFileName, GenAofFilename, Candidate;
    var k := if after.None? then 0 else after.value;
    var name := if after.None? then "" else GenAofFilename(k);
    forall v | v in dir
      ensures ParseFileName(v).Some? && 0 <= IndexOf(v) < n && v == GenAofFilename(IndexOf(v))
    {
      var i: nat :| i < n && v == GenAofFilename(i);
      GeneratedName(i);
    }
    if after.Some? {
      GeneratedName(k);
    }
    forall i: nat | k <= i < n
      ensures GenAofFilename(i) in list && IndexOf(GenAofFilename(i)) == i
    {
      GeneratedName(i);
      assert GenAofFilename(i) in dir && Listed(GenAofFilename(i), name);
    }
    forall v | v in list
      ensures v in dir && k <= IndexOf(v) < n
    {
    }
    hide Listed, IndexOf, Generated;
    IndicesRun(list, k, n);
  }

  lemma IndicesRun(list: seq<string>, k: nat, n: nat)
    requires NamesOrdered(list) && k <= n
    requires forall v :: v in list ==> k <= IndexOf(v) < n && v == GenAofFilename(IndexOf(v))
    requires forall i: nat :: k <= i < n ==> GenAofFilename(i) in list && IndexOf(GenAofFilename(i)) == i
    ensures list == seq(n - k, i requires 0 <= i => GenAofFilename(k + i))
  {
    hide IndexOf, GenAofFilename;
    var indices: seq<nat> := seq(|list|, i requires 0 <= i < |list| => IndexAt(list, i));
    forall i | 0 <= i < |list|
      ensures indices[i] == IndexOf(list[i]) && k <= indices[i] < n && list[i] == GenAofFilename(indices[i])
    {
      assert list[i] in list;
    }
    forall i: nat
      ensures i in indices <==> k <= i < n
    {
      if k <= i < n {
        var m :| 0 <= m < |list| && list[m] == GenAofFilename(i);
        assert indices[m] == i;
      }
    }
    Aof.AscendingRun(indices, k, n);
  }

  function IndexAt(list: seq<string>, i: nat): nat
    requires i < |list|
  {
    if IndexOf(list[i]) >= 0 then IndexOf(list[i]) else 0
  }
}
