/**
 Directories as text (yfs_client.cc:19-34, 94-183, 229-251): an extent holds `name:id:name:id`, which
 `create` appends to, `getDirContent` takes apart again and `ilookup` searches by substring.

 Strings are shorter than 2^31 characters and characters are below 128.  Calls of the extent server
 are a map with a success flag for each call.
 */
module Directory {
  import opened Common

  const TWO_64: nat := 0x1_0000_0000_0000_0000
  const COLON: char := ':'

  /** An `inum`: an unsigned 64-bit number. */
  type Inum = n: nat | n < TWO_64

  datatype Entry = Entry(name: string, id: Inum)

  // ---------------------------------------------------------------- decimal numbers

  function Digit(d: nat): (c: char)
    requires d < 10
    ensures c as int == '0' as int + d && c != COLON
  {
    '0' + d as char
  }

  /** `filename`: what `ostream <<` prints. */
  function Print(n: nat): (s: string)
    ensures s != []
  {
    if n < 10 then [Digit(n)] else Print(n / 10) + [Digit(n % 10)]
  }

  /** The number that the first `k` characters spell, whatever characters they are. */
  function Spelled(s: string, k: nat): (n: int)
    requires k <= |s|
  {
    if k == 0 then 0 else Spelled(s, k - 1) * 10 + (s[k - 1] as int - '0' as int)
  }

  function ToId(s: string): (id: Inum) { Spelled(s, |s|) % TWO_64 }

  lemma {:induction false} SamePrefix(s: string, t: string, k: nat)
    requires k <= |s| && k <= |t| && forall i :: 0 <= i < k ==> s[i] == t[i]
    ensures Spelled(s, k) == Spelled(t, k)
  {
    if k == 0 {
    } else {
      SamePrefix(s, t, k - 1);
    }
  }

  predicate IsDigit(c: char) { '0' <= c <= '9' }

  predicate AllDigits(s: string) { forall i :: 0 <= i < |s| ==> IsDigit(s[i]) }

  lemma {:induction false} PrintSpells(n: nat)
    ensures Spelled(Print(n), |Print(n)|) == n && AllDigits(Print(n))
  {
    if n >= 10 {
      PrintSpells(n / 10);
      SamePrefix(Print(n), Print(n / 10), |Print(n / 10)|);
    } else {
      assert Spelled(Print(n), 0) == 0;
    }
  }

  /** A cut-off number is too small, except for nothing. */
  lemma {:induction false} CutNumberIsSmaller(n: nat, k: nat)
    requires k <= |Print(n)|
    ensures 0 <= Spelled(Print(n), k) <= n
    ensures k < |Print(n)| && n > 0 ==> Spelled(Print(n), k) < n
  {
    if k == |Print(n)| {
      PrintSpells(n);
    } else if n >= 10 {
      CutNumberIsSmaller(n / 10, k);
      SamePrefix(Print(n), Print(n / 10), k);
    }
  }

  lemma StepMod(a: int, d: int)
    ensures (a % TWO_64 * 10 + d) % TWO_64 == (a * 10 + d) % TWO_64
  {
    var q := a / TWO_64;
    assert a == q * TWO_64 + a % TWO_64;
    assert a * 10 + d == q * 10 * TWO_64 + (a % TWO_64 * 10 + d);
    SameRemainder(q * 10, a % TWO_64 * 10 + d);
  }

  lemma {:induction false} SameRemainder(q: int, r: int)
    ensures (q * TWO_64 + r) % TWO_64 == r % TWO_64
    decreases if q >= 0 then q else -q
  {
    if q > 0 {
      SameRemainder(q - 1, r);
      assert q * TWO_64 + r == ((q - 1) * TWO_64 + r) + TWO_64;
    } else if q < 0 {
      SameRemainder(q + 1, r);
      assert q * TWO_64 + r == ((q + 1) * TWO_64 + r) - TWO_64;
    }
  }

  /** `stringToid`, in 64-bit arithmetic. */
  method StringToId(s: string) returns (id: Inum)
    ensures id == ToId(s)
  {
    id := 0;
    for i := 0 to |s|
      invariant id == Spelled(s, i) % TWO_64
    {
      StepMod(Spelled(s, i), s[i] as int - '0' as int);
      id := (id * 10 + (s[i] as int - '0' as int)) % TWO_64;
    }
  }

  predicate IsSpace(c: char) { c == ' ' || '\t' <= c <= '\r' }

  function SkipSpace(s: string): (r: string) {
    if s != [] && IsSpace(s[0]) then SkipSpace(s[1..]) else s
  }

  function DigitPrefix(s: string): (r: string) {
    if s != [] && IsDigit(s[0]) then [s[0]] + DigitPrefix(s[1..]) else []
  }

  /** `n2i`: `istream >>` into an uninitialised number.  `None` is that uninitialised number, which is
      left alone when there is nothing but white space to read. */
  function N2i(s: string): (id: Option<Inum>) {
    var t := SkipSpace(s);
    if t == [] then None
    else
      var signed := t[0] == '+' || t[0] == '-';
      var ds := DigitPrefix(if signed then t[1..] else t);
      var v := Spelled(ds, |ds|);
      if ds == [] then Some(0)
      else if v < 0 || v >= TWO_64 then Some(TWO_64 - 1)
      else if t[0] == '-' then Some((TWO_64 - v) % TWO_64)
      else Some(v)
  }

  lemma {:induction false} AllDigitsArePrefix(s: string)
    requires AllDigits(s)
    ensures DigitPrefix(s) == s
  {
    if s == [] {
    } else {
      AllDigitsArePrefix(s[1..]);
      assert [s[0]] + s[1..] == s;
    }
  }

  /** Printing and either way of reading are inverse on 64-bit numbers. */
  lemma NumbersRoundTrip(n: Inum)
    ensures ToId(Print(n)) == n && N2i(Print(n)) == Some(n)
  {
    PrintSpells(n);
    var s := Print(n);
    assert IsDigit(s[0]);
    AllDigitsArePrefix(s);
  }

  // ---------------------------------------------------------------- tokens

  /** `find(":", from)`, with the length of the string for `npos`. */
  function FindColon(s: string, from: nat): (p: nat)
    requires from <= |s|
    ensures from <= p <= |s|
    decreases |s| - from
  {
    if from == |s| || s[from] == COLON then from else FindColon(s, from + 1)
  }

  predicate Plain(t: string) { forall i :: 0 <= i < |t| ==> t[i] != COLON }

  lemma {:induction false} FindColonIsFirst(s: string, from: nat)
    requires from <= |s|
    ensures var p := FindColon(s, from); p < |s| ==> s[p] == COLON
    ensures forall i :: from <= i < FindColon(s, from) ==> s[i] != COLON
    decreases |s| - from
  {
    if from < |s| && s[from] != COLON { FindColonIsFirst(s, from + 1); }
  }

  /** The parts between the colons, from position `from` on. */
  function SplitFrom(s: string, from: nat): (ts: seq<string>)
    requires from <= |s|
    ensures |ts| >= 1
    decreases |s| - from
  {
    var p := FindColon(s, from);
    if p == |s| then [s[from..p]] else [s[from..p]] + SplitFrom(s, p + 1)
  }

  function Split(s: string): (ts: seq<string>)
    ensures |ts| >= 1
  {
    SplitFrom(s, 0)
  }

  lemma {:induction false} FindDrop(s: string, k: nat, from: nat)
    requires k + from <= |s|
    ensures FindColon(s, k + from) == k + FindColon(s[k..], from)
    decreases |s| - from
  {
    if k + from < |s| { FindDrop(s, k, from + 1); }
  }

  lemma DropSlice<T>(s: seq<T>, k: nat, i: nat, j: nat)
    requires i <= j && k + j <= |s|
    ensures s[k..][i..j] == s[k + i..k + j]
  {
  }

  lemma {:induction false} SplitDrop(s: string, k: nat, from: nat)
    requires k + from <= |s|
    ensures SplitFrom(s, k + from) == SplitFrom(s[k..], from)
    decreases |s| - from
  {
    FindDrop(s, k, from);
    var p := FindColon(s[k..], from);
    DropSlice(s, k, from, p);
    if p < |s| - k { SplitDrop(s, k, p + 1); }
  }

  lemma ColonIsFirst(t: string, rest: string)
    requires Plain(t)
    ensures FindColon(t + [COLON] + rest, 0) == |t|
  {
    var s := t + [COLON] + rest;
    assert s[|t|] == COLON;
    assert forall i :: 0 <= i < |t| ==> s[i] == t[i];
    FindColonIsFirst(s, 0);
  }

  lemma SplitFirst(t: string, rest: string)
    requires Plain(t)
    ensures Split(t + [COLON] + rest) == [t] + Split(rest)
  {
    ColonIsFirst(t, rest);
    var s := t + [COLON] + rest;
    assert s[0..|t|] == t && s[|t| + 1..] == rest;
    SplitDrop(s, |t| + 1, 0);
  }

  lemma SplitPlain(t: string)
    requires Plain(t)
    ensures Split(t) == [t]
  {
    FindColonIsFirst(t, 0);
    assert t[0..|t|] == t;
  }

  /** A string is its first token alone, or its first token, a colon and the rest. */
  lemma Unsplit(s: string) returns (t: string, rest: Option<string>)
    ensures Plain(t) && Split(s)[0] == t
    ensures rest.None? ==> s == t && Split(s) == [t]
    ensures rest.Some? ==> s == t + [COLON] + rest.value && |rest.value| < |s| && Split(s) == [t] + Split(rest.value)
  {
    FindColonIsFirst(s, 0);
    var p := FindColon(s, 0);
    if p == |s| {
      assert s[0..p] == s;
      return s, None;
    }
    t, rest := s[0..p], Some(s[p + 1..]);
    SplitDrop(s, p + 1, 0);
    assert s == t + [COLON] + rest.value;
  }

  lemma {:induction false} SplitJoin(a: string, b: string)
    ensures Split(a + [COLON] + b) == Split(a) + Split(b)
    decreases |a|
  {
    var t, rest := Unsplit(a);
    if rest.None? {
      SplitFirst(a, b);
    } else {
      SplitJoin(rest.value, b);
      JoinOneMore(t, rest.value, b);
      Associative([t], Split(rest.value), Split(b));
    }
  }

  lemma JoinOneMore(t: string, rest: string, b: string)
    requires Plain(t)
    ensures Split(t + [COLON] + rest + [COLON] + b) == [t] + Split(rest + [COLON] + b)
  {
    SplitFirst(t, rest + [COLON] + b);
    Associative(t + [COLON], rest, [COLON] + b);
    Associative(t + [COLON] + rest, [COLON], b);
    Associative(rest, [COLON], b);
  }

  // ---------------------------------------------------------------- the text that create builds

  /** The new text of a directory. */
  function Append(dir: string, e: Entry): (r: string) {
    (if dir == [] then [] else dir + [COLON]) + e.name + [COLON] + Print(e.id)
  }

  /** The text after creating `es` in an empty directory. */
  function Text(es: seq<Entry>): (r: string) {
    if es == [] then [] else Append(Text(es[..|es| - 1]), es[|es| - 1])
  }

  predicate ColonFree(es: seq<Entry>) { forall i :: 0 <= i < |es| ==> Plain(es[i].name) }

  function Last(es: seq<Entry>): (e: Entry)
    requires es != []
  {
    es[|es| - 1]
  }

  /** The tokens of the entries, names and ids alternating. */
  function Tokens(es: seq<Entry>): (ts: seq<string>)
    ensures |ts| == 2 * |es|
  {
    if es == [] then [] else Tokens(es[..|es| - 1]) + [Last(es).name, Print(Last(es).id)]
  }

  lemma PrintHasNoColon(n: nat)
    ensures Plain(Print(n))
  {
    PrintSpells(n);
  }

  lemma SplitLastEntry(dir: string, e: Entry)
    ensures Split(Append(dir, e)) == (if dir == [] then [] else Split(dir)) + Split(e.name) + [Print(e.id)]
  {
    PrintHasNoColon(e.id);
    SplitPlain(Print(e.id));
    if dir == [] {
      SplitJoin(e.name, Print(e.id));
      assert [] + e.name == e.name && [] + Split(e.name) == Split(e.name);
    } else {
      SplitJoin(dir, e.name);
      SplitJoin(dir + [COLON] + e.name, Print(e.id));
    }
  }

  lemma SplitText(es: seq<Entry>)
    requires es != []
    ensures Text(es) != []
    ensures Split(Text(es)) ==
      (if |es| == 1 then [] else Split(Text(es[..|es| - 1]))) + Split(Last(es).name) + [Print(Last(es).id)]
  {
    var front := es[..|es| - 1];
    SplitLastEntry(Text(front), Last(es));
    if |es| > 1 { assert Text(front)[|Text(front)| - 1..] != []; }
  }

  /** With colon-free names, the tokens of the text are the names and the printed ids. */
  lemma {:induction false} TextTokens(es: seq<Entry>)
    requires es != [] && ColonFree(es)
    ensures Split(Text(es)) == Tokens(es)
  {
    SplitText(es);
    SplitPlain(Last(es).name);
    if |es| > 1 {
      TextTokens(es[..|es| - 1]);
    }
    assert Tokens(es) == Tokens(es[..|es| - 1]) + [Last(es).name] + [Print(Last(es).id)];
  }

  /** A colon in a name makes extra tokens. */
  lemma {:induction false} ExtraTokens(es: seq<Entry>)
    requires es != []
    ensures |Split(Text(es))| >= 2 * |es|
    ensures |Split(Text(es))| == 2 * |es| ==> ColonFree(es)
  {
    SplitText(es);
    var e := Last(es);
    var t, rest := Unsplit(e.name);
    if |es| > 1 { ExtraTokens(es[..|es| - 1]); }
    if |Split(Text(es))| == 2 * |es| {
      forall i | 0 <= i < |es| ensures Plain(es[i].name) {
        if i < |es| - 1 { assert es[i] == es[..|es| - 1][i]; }
      }
    }
  }

  // ---------------------------------------------------------------- taking the text apart

  /** What the loop has after some tokens: the entries, the last name, and whether that name still waits
      for its id. */
  datatype Half = Half(es: seq<Entry>, name: string, open: bool)

  function OneMore(h: Half, token: string): (r: Half) {
    if h.open then Half(h.es + [Entry(h.name, ToId(token))], h.name, false) else Half(h.es, token, true)
  }

  function Pairs(ts: seq<string>): (h: Half) {
    if ts == [] then Half([], [], false) else OneMore(Pairs(ts[..|ts| - 1]), ts[|ts| - 1])
  }

  function Take(s: string, n: nat): (r: string) { if n < |s| then s[..n] else s }

  /** The loop pairs off all tokens but the last, and of that takes `cut` characters. */
  function ParseTokens(ts: seq<string>, cut: nat): (es: seq<Entry>)
    requires ts != []
  {
    var m := |ts| - 1;
    var h := Pairs(ts[..m]);
    if m == 0 then [] else h.es + [Entry(h.name, ToId(Take(ts[m], cut)))]
  }

  /** The index of the last colon, if there is one. */
  function LastColon(s: string): (i: nat) {
    LastTokenIsShorter(s);
    if |Split(s)| == 1 then 0 else |s| - |LastOf(Split(s))| - 1
  }

  /** The last token is cut to as many characters as the text has before its last colon, because
      `substr` is given a position as its length. */
  function Parse(content: string): (es: seq<Entry>) {
    ParseTokens(Split(content), LastColon(content))
  }

  lemma {:induction false} LastTokenIsShorter(s: string)
    ensures |Split(s)[|Split(s)| - 1]| <= |s|
    ensures |Split(s)| > 1 ==> |Split(s)[|Split(s)| - 1]| < |s|
    decreases |s|
  {
    var t, rest := Unsplit(s);
    if rest.Some? { LastTokenIsShorter(rest.value); }
  }

  lemma PairsGrow(before: seq<string>, token: string)
    ensures Pairs(before + [token]) == OneMore(Pairs(before), token)
  {
    assert (before + [token])[..|before|] == before;
  }

  /** The rest of the loop and what follows it, from `begin` on with `h` in hand. */
  function Scan(content: string, begin: nat, h: Half): (es: seq<Entry>)
    requires begin <= |content|
    decreases |content| - begin
  {
    var p := FindColon(content, begin);
    if p < |content| then Scan(content, p + 1, OneMore(h, content[begin..p]))
    else h.es + [Entry(h.name, ToId(Take(content[begin..], if begin == 0 then 0 else begin - 1)))]
  }

  function LastOf(ts: seq<string>): (t: string)
    requires ts != []
  {
    ts[|ts| - 1]
  }

  lemma ParseLast(before: seq<string>, t: string, cut: nat)
    requires before != []
    ensures ParseTokens(before + [t], cut) == Pairs(before).es + [Entry(Pairs(before).name, ToId(Take(t, cut)))]
  {
    var ts := before + [t];
    assert ts[..|before|] == before && ts[|before|] == t;
  }

  /** Scanning is parsing the tokens. */
  lemma {:induction false} ScanParses(content: string, begin: nat, before: seq<string>, ts: seq<string>, cut: nat)
    requires begin <= |content| && ((before != [] && begin > 0) || FindColon(content, begin) < |content|)
    requires ts == before + SplitFrom(content, begin) && cut == |content| - |LastOf(SplitFrom(content, begin))| - 1
    ensures Scan(content, begin, Pairs(before)) == ParseTokens(ts, cut)
    decreases |content| - begin
  {
    var p := FindColon(content, begin);
    var token := content[begin..p];
    if p == |content| {
      assert token == content[begin..];
      ParseLast(before, token, cut);
    } else {
      PairsGrow(before, token);
      Associative(before, [token], SplitFrom(content, p + 1));
      ScanParses(content, p + 1, before + [token], ts, cut);
    }
  }

  lemma ScanAll(content: string)
    requires FindColon(content, 0) < |content|
    ensures Scan(content, 0, Half([], [], false)) == ParseTokens(Split(content), LastColon(content))
  {
    var ts, before: seq<string> := Split(content), [];
    assert before + ts == ts;
    LastTokenIsShorter(content);
    assert |ts| > 1;
    var cut := LastColon(content);
    ScanParses(content, 0, before, ts, cut);
    assert Pairs(before) == Half([], [], false);
  }

  lemma ScanIsParse(content: string)
    ensures Parse(content) == if FindColon(content, 0) == |content| then [] else Scan(content, 0, Half([], [], false))
  {
    if FindColon(content, 0) < |content| { ScanAll(content); }
  }

  lemma ScanStep(content: string, begin: nat, h: Half, end: nat)
    requires begin <= |content| && FindColon(content, begin) == end < |content|
    ensures Scan(content, begin, h) == Scan(content, end + 1, OneMore(h, content[begin..end]))
  {
  }

  lemma ScanEnd(content: string, begin: nat, h: Half)
    requires 0 < begin <= |content| && FindColon(content, begin) == |content|
    ensures Scan(content, begin, h) == h.es + [Entry(h.name, ToId(Take(content[begin..], begin - 1)))]
  {
  }

  /** The part of the loop body that stores a name or an entry. */
  method StoreToken(token: string, cycleTime: nat, es: seq<Entry>, tempName: string)
    returns (es': seq<Entry>, tempName': string)
    ensures Half(es', tempName', cycleTime % 2 == 1) == OneMore(Half(es, tempName, cycleTime % 2 == 0), token)
  {
    es', tempName' := es, tempName;
    if cycleTime % 2 == 1 {
      tempName' := token;
    } else {
      var id := StringToId(token);
      es' := es + [Entry(tempName, id)];
    }
  }

  /** What is left to scan after `m` tokens. */
  ghost function Ahead(content: string, begin: nat, m: nat, es: seq<Entry>, name: string): (r: seq<Entry>)
    requires begin <= |content|
  {
    Scan(content, begin, Half(es, name, m % 2 == 1))
  }

  /** One pass of the loop of `getDirContent`; `done` when there is no further colon. */
  method OnePass(content: string, begin: nat, m: nat, es: seq<Entry>, name: string)
    returns (done: bool, end: nat, es': seq<Entry>, name': string)
    requires begin <= |content|
    ensures done <==> FindColon(content, begin) == |content|
    ensures done ==> es' == es && name' == name
    ensures !done ==> begin <= end < |content|
    ensures !done ==> Ahead(content, end + 1, m + 1, es', name') == Ahead(content, begin, m, es, name)
  {
    var pos := FindColon(content, begin);
    if pos == |content| { return true, 0, es, name; }
    done, end := false, pos;
    ScanStep(content, begin, Half(es, name, m % 2 == 1), end);
    es', name' := StoreToken(content[begin..end], m + 1, es, name);
  }

  /** The loop of `getDirContent`. */
  method ScanContent(content: string) returns (es: seq<Entry>)
    ensures es == if FindColon(content, 0) == |content| then [] else Scan(content, 0, Half([], [], false))
  {
    es := [];
    if FindColon(content, 0) == |content| { return; }
    var begin, end, cycleTime, tempName := 0, 0, 0, [];
    ghost var goal := Ahead(content, 0, 0, es, tempName);
    while end < |content|
      invariant end < |content| && begin <= |content|
      invariant if cycleTime == 0 then begin == end == 0 else begin == end + 1
      invariant Ahead(content, begin, cycleTime, es, tempName) == goal
      decreases |content| - begin
    {
      var done, pos, es', name' := OnePass(content, begin, cycleTime, es, tempName);
      if done { break; }
      end, cycleTime, es, tempName := pos, cycleTime + 1, es', name';
      begin := end + 1;
    }
    ScanEnd(content, begin, Half(es, tempName, cycleTime % 2 == 1));
    var id := StringToId(Take(content[begin..], end));
    es := es + [Entry(tempName, id)];
  }

  // ---------------------------------------------------------------- create and getDirContent agree

  lemma {:induction false} PairsOfTokens(es: seq<Entry>)
    ensures Pairs(Tokens(es)) == Half(es, if es == [] then [] else Last(es).name, false)
  {
    if es == [] {
    } else {
      var front, e := es[..|es| - 1], Last(es);
      PairsOfTokens(front);
      PairsGrow(Tokens(front), e.name);
      PairsGrow(Tokens(front) + [e.name], Print(e.id));
      assert Tokens(es) == Tokens(front) + [e.name] + [Print(e.id)];
      NumbersRoundTrip(e.id);
      assert es == front + [e];
    }
  }

  lemma ParseLastPair(before: seq<string>, name: string, last: string, cut: nat)
    requires !Pairs(before).open
    ensures ParseTokens(before + [name, last], cut) == Pairs(before).es + [Entry(name, ToId(Take(last, cut)))]
  {
    PairsGrow(before, name);
    var ts := before + [name, last];
    assert ts[..|ts| - 1] == before + [name];
  }

  lemma ParseTokensOf(es: seq<Entry>, cut: nat)
    requires es != []
    ensures ParseTokens(Tokens(es), cut) == es[..|es| - 1] + [Entry(Last(es).name, ToId(Take(Print(Last(es).id), cut)))]
  {
    PairsOfTokens(es[..|es| - 1]);
    ParseLastPair(Tokens(es[..|es| - 1]), Last(es).name, Print(Last(es).id), cut);
  }

  /** The parsed text has every entry but the last as it was; the last id may have been cut. */
  lemma ParseText(es: seq<Entry>)
    requires es != [] && ColonFree(es)
    ensures LastColon(Text(es)) == |Text(es)| - |Print(Last(es).id)| - 1
    ensures Parse(Text(es)) ==
      es[..|es| - 1] + [Entry(Last(es).name, ToId(Take(Print(Last(es).id), LastColon(Text(es)))))]
  {
    TextTokens(es);
    ParseTokensOf(es, LastColon(Text(es)));
  }

  lemma CutIdIsRightIff(id: Inum, k: nat)
    ensures ToId(Take(Print(id), k)) == id <==> id == 0 || k >= |Print(id)|
  {
    NumbersRoundTrip(id);
    if k < |Print(id)| {
      CutNumberIsSmaller(id, k);
      SamePrefix(Print(id), Print(id)[..k], k);
    }
  }

  lemma {:induction false} PairsCount(ts: seq<string>)
    ensures 2 * |Pairs(ts).es| + (if Pairs(ts).open then 1 else 0) == |ts|
  {
    if ts == [] {
    } else {
      PairsCount(ts[..|ts| - 1]);
    }
  }

  /** Every second token makes an entry, and so does an odd one at the end. */
  lemma ParsedSize(content: string)
    requires |Split(content)| > 1
    ensures |Split(content)| <= 2 * |Parse(content)| <= |Split(content)| + 1
  {
    PairsCount(Split(content)[..|Split(content)| - 1]);
  }

  /** The index of the last colon is at least the number of digits of the last id. */
  predicate LastIdIsWhole(es: seq<Entry>)
    requires es != []
  {
    LastColon(Text(es)) >= |Print(Last(es).id)|
  }

  lemma LastDecides(es: seq<Entry>, e: Entry)
    requires es != []
    ensures es[..|es| - 1] + [e] == es <==> e == Last(es)
  {
    assert (es[..|es| - 1] + [e])[|es| - 1] == e;
  }

  /** `getDirContent` gives back exactly what `create` put in, for any entries at all, if and only if no
      name has a colon and the last id is not cut (a zero id survives being cut). */
  lemma ParseIsExactIff(es: seq<Entry>)
    ensures Parse(Text(es)) == es <==> es == [] || (ColonFree(es) && (LastIdIsWhole(es) || Last(es).id == 0))
  {
    if es == [] {
      SplitPlain([]);
    } else if ColonFree(es) {
      ParseText(es);
      var k := LastColon(Text(es));
      CutIdIsRightIff(Last(es).id, k);
      LastDecides(es, Entry(Last(es).name, ToId(Take(Print(Last(es).id), k))));
    } else {
      ExtraTokens(es);
      ParsedSize(Text(es));
    }
  }

  /** For non-empty names the index of the last colon alone decides. */
  lemma ParseIsExactForNames(es: seq<Entry>)
    requires ColonFree(es) && forall i :: 0 <= i < |es| ==> es[i].name != []
    ensures Parse(Text(es)) == es <==> es == [] || LastIdIsWhole(es)
  {
    ParseIsExactIff(es);
    if es != [] && Last(es).id == 0 {
      assert es[|es| - 1].name != [];
      assert Print(0) == [Digit(0)];
      ParseText(es);
    }
  }

  lemma Twelve()
    ensures Print(12) == "12" && ToId(Take("12", 1)) == 1
  {
    assert Print(1) == "1";
    assert Spelled("1", 0) == 0;
  }

  lemma TextOfOne(e: Entry)
    ensures Text([e]) == e.name + [COLON] + Print(e.id)
  {
    assert [e][..0] == [];
    assert Text([]) == [] && [] + e.name == e.name;
  }

  /** The id 12 of a file `a` alone in its directory comes back as 1. */
  lemma LonelyIdIsCut()
    ensures Parse(Text([Entry("a", 12)])) == [Entry("a", 1)]
  {
    var e := Entry("a", 12);
    Twelve();
    TextOfOne(e);
    ParseText([e]);
  }

  // ---------------------------------------------------------------- looking a name up

  predicate Matches(s: string, w: string, i: nat) {
    i + |w| <= |s| && forall k :: 0 <= k < |w| ==> s[i + k] == w[k]
  }

  /** `find(w, from)`, with the length of the string for `npos`. */
  function FindSub(s: string, w: string, from: nat): (p: nat)
    requires from <= |s|
    ensures from <= p <= |s|
    decreases |s| - from
  {
    if from == |s| || Matches(s, w, from) then from else FindSub(s, w, from + 1)
  }

  /** `ilookup` once the extent has been fetched. */
  method SearchContent(content: string, name: string) returns (id: Option<Inum>)
    ensures id == ReadId(SearchText(content, name))
  {
    var contentCp, nameCp := content + [COLON], name + [COLON];
    var head := FindSub(contentCp, nameCp, 0);
    if head == |contentCp| { return Some(0); }
    FoundFits(contentCp, nameCp, 0);
    head := head + |nameCp|;
    var tail := FindColon(contentCp, head);
    id := N2i(contentCp[head..tail]);
  }

  lemma {:induction false} FoundFits(s: string, w: string, from: nat)
    requires from <= |s|
    ensures FindSub(s, w, from) < |s| ==> Matches(s, w, FindSub(s, w, from))
    decreases |s| - from
  {
    if from < |s| && !Matches(s, w, from) { FoundFits(s, w, from + 1); }
  }

  /** What follows the match at `head`, up to the next colon. */
  function Following(c: string, w: string, head: nat): (t: Option<string>)
    requires head <= |c|
  {
    if head == |c| || head + |w| > |c| then None else Some(c[head + |w|..FindColon(c, head + |w|)])
  }

  /** No match gives id 0. */
  function ReadId(t: Option<string>): (id: Option<Inum>) { if t.None? then Some(0) else N2i(t.value) }

  function SearchFrom(content: string, name: string, from: nat): (t: Option<string>)
    requires from <= |content| + 1
  {
    Following(content + [COLON], name + [COLON], FindSub(content + [COLON], name + [COLON], from))
  }

  function SearchText(content: string, name: string): (t: Option<string>) { SearchFrom(content, name, 0) }

  predicate EndsWith(t: string, name: string) {
    |name| <= |t| && t[|t| - |name|..] == name
  }

  /** The token after the first token that ends with `name`. */
  function AfterSuffix(ts: seq<string>, name: string): (t: Option<string>) {
    if ts == [] then None
    else if EndsWith(ts[0], name) then Some(if |ts| > 1 then ts[1] else [])
    else AfterSuffix(ts[1..], name)
  }

  lemma {:induction false} SkipTo(s: string, w: string, from: nat, to: nat)
    requires from <= to <= |s| && forall i :: from <= i < to ==> !Matches(s, w, i)
    ensures FindSub(s, w, from) == FindSub(s, w, to)
    decreases |s| - from
  {
    if from == to {
    } else {
      SkipTo(s, w, from + 1, to);
    }
  }

  lemma {:induction false} ColonAfter(content: string, from: nat)
    requires from <= |content|
    ensures FindColon(content + [COLON], from) == FindColon(content, from)
    decreases |content| - from
  {
    if from == |content| {
    } else {
      ColonAfter(content, from + 1);
    }
  }

  /** Within a token and its colon the searched text can only sit at the token's end. */
  lemma MatchIsAtEnd(content: string, name: string, from: nat, i: nat)
    requires Plain(name) && from <= |content| && from <= i <= FindColon(content, from)
    requires Matches(content + [COLON], name + [COLON], i)
    ensures i + |name| == FindColon(content, from)
  {
    var c, w, p := content + [COLON], name + [COLON], FindColon(content, from);
    FindColonIsFirst(content, from);
    assert c[p] == COLON && forall j :: from <= j < p ==> c[j] == content[j] != COLON;
    assert c[i + |name|] == w[|name|] == COLON;
    assert p - i < |w| ==> c[i + (p - i)] == w[p - i];
  }

  lemma MatchIsSuffix(content: string, name: string, from: nat, i: nat)
    requires from <= i && i + |name| <= |content| && Matches(content + [COLON], name + [COLON], i)
    ensures EndsWith(content[from..i + |name|], name)
  {
    var c, w, token := content + [COLON], name + [COLON], content[from..i + |name|];
    forall k | 0 <= k < |name| ensures token[|token| - |name| + k] == name[k] { assert c[i + k] == w[k]; }
    assert token[|token| - |name|..] == name;
  }

  lemma SuffixMatches(content: string, name: string, from: nat, p: nat)
    requires from <= p <= |content| && (content + [COLON])[p] == COLON && EndsWith(content[from..p], name)
    ensures Matches(content + [COLON], name + [COLON], p - |name|)
  {
    var c, w, token, i := content + [COLON], name + [COLON], content[from..p], p - |name|;
    forall k | 0 <= k < |w| ensures c[i + k] == w[k] {
      if k < |name| { assert token[|token| - |name| + k] == token[|token| - |name|..][k]; }
    }
  }

  lemma MatchInToken(content: string, name: string, from: nat)
    requires Plain(name) && from <= |content|
    ensures var c, w, p := content + [COLON], name + [COLON], FindColon(content, from);
      FindSub(c, w, from) == if EndsWith(content[from..p], name) then p - |name| else FindSub(c, w, p + 1)
  {
    var c, w, p := content + [COLON], name + [COLON], FindColon(content, from);
    var ends := EndsWith(content[from..p], name);
    forall i | from <= i <= p && Matches(c, w, i) ensures i + |name| == p && ends {
      MatchIsAtEnd(content, name, from, i);
      MatchIsSuffix(content, name, from, i);
    }
    if ends {
      FindColonIsFirst(content, from);
      SuffixMatches(content, name, from, p);
      SkipTo(c, w, from, p - |name|);
    } else {
      SkipTo(c, w, from, p + 1);
    }
  }

  lemma AppendSlice<T>(s: seq<T>, t: seq<T>, i: nat, j: nat)
    requires i <= j <= |s|
    ensures (s + t)[i..j] == s[i..j]
  {
  }

  /** The token after the one that starts at `from`. */
  function SecondToken(content: string, from: nat): (t: string)
    requires from <= |content|
  {
    var p := FindColon(content, from);
    if p < |content| then content[p + 1..FindColon(content, p + 1)] else []
  }

  lemma NextToken(content: string, w: string, from: nat)
    requires from <= |content| && 0 < |w| <= FindColon(content, from) + 1
    ensures Following(content + [COLON], w, FindColon(content, from) + 1 - |w|) == Some(SecondToken(content, from))
  {
    var p, c := FindColon(content, from), content + [COLON];
    if p < |content| {
      ColonAfter(content, p + 1);
      AppendSlice(content, [COLON], p + 1, FindColon(content, p + 1));
    } else {
      assert c[|c|..FindColon(c, |c|)] == [];
    }
  }

  /** What the search finds in or after the token at `from`. */
  lemma SearchStep(content: string, name: string, from: nat)
    requires Plain(name) && from <= |content|
    ensures var p := FindColon(content, from);
      SearchFrom(content, name, from) ==
      if EndsWith(content[from..p], name) then Some(SecondToken(content, from)) else SearchFrom(content, name, p + 1)
  {
    MatchInToken(content, name, from);
    if EndsWith(content[from..FindColon(content, from)], name) {
      NextToken(content, name + [COLON], from);
    }
  }

  lemma SearchPastEnd(content: string, name: string)
    ensures SearchFrom(content, name, |content| + 1) == None
  {
  }

  lemma SuffixStep(first: string, rest: seq<string>, name: string)
    ensures AfterSuffix([first] + rest, name) ==
      if EndsWith(first, name) then Some(if rest == [] then [] else rest[0]) else AfterSuffix(rest, name)
  {
    var ts := [first] + rest;
    assert ts[0] == first && ts[1..] == rest;
  }

  lemma SplitStep(content: string, from: nat) returns (rest: seq<string>)
    requires from <= |content|
    ensures var p := FindColon(content, from); rest == if p < |content| then SplitFrom(content, p + 1) else []
    ensures SplitFrom(content, from) == [content[from..FindColon(content, from)]] + rest
    ensures SecondToken(content, from) == if rest == [] then [] else rest[0]
  {
    var p := FindColon(content, from);
    rest := if p < |content| then SplitFrom(content, p + 1) else [];
  }

  lemma {:induction false} SearchFollowsTokens(content: string, name: string, from: nat)
    requires Plain(name) && from <= |content|
    ensures SearchFrom(content, name, from) == AfterSuffix(SplitFrom(content, from), name)
    decreases |content| - from
  {
    var p := FindColon(content, from);
    if p < |content| {
      SearchFollowsTokens(content, name, p + 1);
    } else {
      SearchPastEnd(content, name);
    }
    AgreeStep(content, name, from);
  }

  lemma AgreeStep(content: string, name: string, from: nat)
    requires Plain(name) && from <= |content|
    requires var p := FindColon(content, from);
      SearchFrom(content, name, p + 1) == if p < |content| then AfterSuffix(SplitFrom(content, p + 1), name) else None
    ensures SearchFrom(content, name, from) == AfterSuffix(SplitFrom(content, from), name)
  {
    SearchStep(content, name, from);
    var rest := SplitStep(content, from);
    SuffixStep(content[from..FindColon(content, from)], rest, name);
  }

  /** For a name without a colon, `ilookup` takes the token after the first token, be it a name or an id,
      that ends with the name. */
  lemma SearchFindsSuffix(content: string, name: string)
    requires Plain(name)
    ensures SearchText(content, name) == AfterSuffix(Split(content), name)
  {
    SearchFollowsTokens(content, name, 0);
  }

  /** The id of the first entry with this name, or 0. */
  function Lookup(es: seq<Entry>, name: string): (id: Inum) {
    if es == [] then 0 else if es[0].name == name then es[0].id else Lookup(es[1..], name)
  }

  /** The tokens of the entries, first entry first. */
  lemma {:induction false} TokensFromFront(es: seq<Entry>)
    requires es != []
    ensures Tokens(es) == [es[0].name] + ([Print(es[0].id)] + Tokens(es[1..]))
  {
    if |es| > 1 {
      var front := es[..|es| - 1];
      TokensFromFront(front);
      assert front[1..] == es[1..][..|es[1..]| - 1];
    }
  }

  lemma EndsWithItself(t: string, name: string)
    ensures t == name ==> EndsWith(t, name)
  {
    assert t[0..] == t;
  }

  /** Before the first entry called `name` no name ends with it, and no id does. */
  predicate Unambiguous(es: seq<Entry>, name: string) {
    es != [] && es[0].name != name ==>
      !EndsWith(es[0].name, name) && !EndsWith(Print(es[0].id), name) && Unambiguous(es[1..], name)
  }

  lemma {:induction false} TokensGiveEntry(es: seq<Entry>, name: string)
    requires Unambiguous(es, name)
    ensures ReadId(AfterSuffix(Tokens(es), name)) == Some(Lookup(es, name))
  {
    if es == [] {
    } else {
      var e, rest := es[0], Tokens(es[1..]);
      TokensFromFront(es);
      SuffixStep(e.name, [Print(e.id)] + rest, name);
      SuffixStep(Print(e.id), rest, name);
      EndsWithItself(e.name, name);
      if e.name == name {
        NumbersRoundTrip(e.id);
      } else {
        TokensGiveEntry(es[1..], name);
      }
    }
  }

  /** `ilookup` on a directory of any length gives the id of the entry, or 0 for a missing name, as long as
      the name is unambiguous there. */
  lemma LookupIsRight(es: seq<Entry>, name: string)
    requires ColonFree(es) && Plain(name) && Unambiguous(es, name)
    requires es != [] || name != []
    ensures ReadId(SearchText(Text(es), name)) == Some(Lookup(es, name))
  {
    SearchFindsSuffix(Text(es), name);
    if es == [] {
      SplitPlain([]);
      assert AfterSuffix(Split([]), name) == None;
    } else {
      TextTokens(es);
      TokensGiveEntry(es, name);
    }
  }

  // ---------------------------------------------------------------- exactly when a lookup is right

  predicate Present(es: seq<Entry>, name: string) { exists i :: 0 <= i < |es| && es[i].name == name }

  predicate DistinctIds(es: seq<Entry>) { forall i, j :: 0 <= i < j < |es| ==> es[i].id != es[j].id }

  /** No name could be taken for an id of the directory. */
  predicate NamesAreNotIds(es: seq<Entry>) {
    forall i, j :: 0 <= i < |es| && 0 <= j < |es| ==> N2i(es[i].name) != Some(es[j].id)
  }

  lemma {:induction false} LookupIsAnId(es: seq<Entry>, name: string) returns (i: nat)
    requires Present(es, name)
    ensures i < |es| && es[i].name == name && Lookup(es, name) == es[i].id
  {
    if es[0].name == name { return 0; }
    var k :| 0 <= k < |es| && es[k].name == name;
    assert es[1..][k - 1].name == name;
    var j := LookupIsAnId(es[1..], name);
    i := j + 1;
  }

  lemma RestIsAlike(es: seq<Entry>, name: string)
    requires es != [] && Present(es, name) && DistinctIds(es) && NamesAreNotIds(es) && es[0].name != name
    ensures Present(es[1..], name) && DistinctIds(es[1..]) && NamesAreNotIds(es[1..])
  {
    var k :| 0 <= k < |es| && es[k].name == name;
    assert es[1..][k - 1].name == name;
  }

  lemma {:induction false} AmbiguousGivesWrong(es: seq<Entry>, name: string)
    requires Present(es, name) && DistinctIds(es) && NamesAreNotIds(es) && !Unambiguous(es, name)
    ensures ReadId(AfterSuffix(Tokens(es), name)) != Some(Lookup(es, name))
  {
    var e, rest := es[0], Tokens(es[1..]);
    TokensFromFront(es);
    SuffixStep(e.name, [Print(e.id)] + rest, name);
    SuffixStep(Print(e.id), rest, name);
    RestIsAlike(es, name);
    var i := LookupIsAnId(es, name);
    if EndsWith(e.name, name) {
      NumbersRoundTrip(e.id);
    } else if EndsWith(Print(e.id), name) {
      TokensFromFront(es[1..]);
      assert rest[0] == es[1].name;
    } else {
      AmbiguousGivesWrong(es[1..], name);
    }
  }

  /** Where ids are distinct and no name reads as one of them, `ilookup` finds the right id of a name in
      the directory if and only if nothing before it ends with the name. */
  lemma PresentLookupIsRightIff(es: seq<Entry>, name: string)
    requires ColonFree(es) && Present(es, name) && DistinctIds(es) && NamesAreNotIds(es)
    ensures ReadId(SearchText(Text(es), name)) == Some(Lookup(es, name)) <==> Unambiguous(es, name)
  {
    var i := LookupIsAnId(es, name);
    assert Plain(es[i].name);
    if Unambiguous(es, name) {
      LookupIsRight(es, name);
    } else {
      SearchFindsSuffix(Text(es), name);
      TextTokens(es);
      AmbiguousGivesWrong(es, name);
    }
  }

  /** Going through the entries in order, the first name or id that ends with `name` leads to `id`: a name by its
      own id, an id by the number that the following name reads as.  If there is none, 0 is reached. */
  predicate LeadsTo(es: seq<Entry>, name: string, id: Inum) {
    if es == [] then id == 0
    else if EndsWith(es[0].name, name) then es[0].id == id
    else if EndsWith(Print(es[0].id), name) then |es| > 1 && N2i(es[1].name) == Some(id)
    else LeadsTo(es[1..], name, id)
  }

  lemma {:induction false} TokensLead(es: seq<Entry>, name: string, id: Inum)
    ensures ReadId(AfterSuffix(Tokens(es), name)) == Some(id) <==> LeadsTo(es, name, id)
  {
    if es == [] {
    } else {
      var e, rest := es[0], Tokens(es[1..]);
      TokensFromFront(es);
      SuffixStep(e.name, [Print(e.id)] + rest, name);
      SuffixStep(Print(e.id), rest, name);
      NumbersRoundTrip(e.id);
      if |es| > 1 {
        TokensFromFront(es[1..]);
        assert rest[0] == es[1].name;
      }
      TokensLead(es[1..], name, id);
    }
  }

  /** What `ilookup` gives for any name without a colon, in any directory. */
  lemma SearchLeads(es: seq<Entry>, name: string, id: Inum)
    requires ColonFree(es) && Plain(name)
    ensures ReadId(SearchText(Text(es), name)) == Some(id) <==> LeadsTo(es, name, id) && (es != [] || name != [])
  {
    SearchFindsSuffix(Text(es), name);
    if es == [] {
      SplitPlain([]);
      assert AfterSuffix(Split([]), name) == if name == [] then Some([]) else None;
    } else {
      TextTokens(es);
      TokensLead(es, name, id);
    }
  }

  /** The exact condition for every directory and every name without a colon: `ilookup` gives what the entry list
      has if and only if the entries lead there. */
  lemma LookupIsRightIff(es: seq<Entry>, name: string)
    requires ColonFree(es) && Plain(name)
    ensures ReadId(SearchText(Text(es), name)) == Some(Lookup(es, name)) <==>
      LeadsTo(es, name, Lookup(es, name)) && (es != [] || name != [])
  {
    SearchLeads(es, name, Lookup(es, name));
  }

  lemma {:induction false} MissingIsZero(es: seq<Entry>, name: string)
    requires !Present(es, name)
    ensures Lookup(es, name) == 0
  {
    if es == [] {
    } else {
      assert es[0].name != name;
      forall i | 0 <= i < |es[1..]| ensures es[1..][i].name != name { assert es[i + 1].name != name; }
      MissingIsZero(es[1..], name);
    }
  }

  /** For a name that is not in the directory, whatever the ids: `ilookup` reports it missing if and only if the
      entries lead to 0. */
  lemma MissingLookupIsRightIff(es: seq<Entry>, name: string)
    requires ColonFree(es) && Plain(name) && !Present(es, name)
    ensures ReadId(SearchText(Text(es), name)) == Some(Lookup(es, name)) <==>
      LeadsTo(es, name, 0) && (es != [] || name != [])
  {
    MissingIsZero(es, name);
    LookupIsRightIff(es, name);
  }

  /** In a directory that holds only `ab`, the missing name `b` is found. */
  lemma MissingNameIsFound(id: Inum)
    requires id != 0
    ensures ReadId(SearchText(Text([Entry("ab", id)]), "b")) == Some(id)
    ensures Lookup([Entry("ab", id)], "b") == 0
  {
    var es := [Entry("ab", id)];
    TextTokens(es);
    SearchFindsSuffix(Text(es), "b");
    TokensFromFront(es);
    SuffixStep("ab", [Print(id)] + Tokens(es[1..]), "b");
    NumbersRoundTrip(id);
    assert es[1..] == [];
  }

  /** Next to an earlier `ab`, the name `b` is not found. */
  lemma SuffixIsTakenForName(id: Inum, other: Inum)
    requires id != other
    ensures ReadId(SearchText(Text([Entry("ab", other), Entry("b", id)]), "b")) == Some(other)
    ensures Lookup([Entry("ab", other), Entry("b", id)], "b") == id
  {
    var es := [Entry("ab", other), Entry("b", id)];
    TextTokens(es);
    SearchFindsSuffix(Text(es), "b");
    TokensFromFront(es);
    SuffixStep("ab", [Print(other)] + Tokens(es[1..]), "b");
    NumbersRoundTrip(other);
    assert es[1..] == [Entry("b", id)];
  }

  // ---------------------------------------------------------------- the client

  datatype Status = OK | IOERR

  /** `maxextent`: the extent server refuses a larger text. */
  const MAX_EXTENT: nat := 8_192_000

  /** Bit 31 tells files from directories. */
  predicate IsFile(id: Inum) { id / 0x8000_0000 % 2 == 1 }

  /** Of the lower 32 bits of an id, the upper half of the range are files. */
  lemma FilesAreTheUpperHalf(h: nat, l: nat)
    requires l < 0x1_0000_0000 && h * 0x1_0000_0000 + l < TWO_64
    ensures IsFile(h * 0x1_0000_0000 + l) <==> l >= 0x8000_0000
  {
    var id := h * 0x1_0000_0000 + l;
    assert id / 0x8000_0000 == 2 * h + l / 0x8000_0000;
  }

  /** The client with the extents it reaches.  The flags say whether each call of the extent server gets
      through; `get` also fails when there is no such extent. */
  class YfsClient {
    var extents: map<Inum, string>

    constructor ()
      ensures extents == map[1 := ""]
    {
      extents := map[1 := ""];
    }

    method Create(parent: Inum, id: Inum, name: string, getOk: bool, putFileOk: bool, putDirOk: bool)
      returns (r: Status)
      modifies this
      ensures r == OK <==>
        && getOk && parent in old(extents) && (IsFile(id) ==> putFileOk) && putDirOk
        && |Append(old(extents)[parent], Entry(name, id))| <= MAX_EXTENT
      ensures r == OK ==>
        var before := if IsFile(id) then old(extents)[id := ""] else old(extents);
        extents == before[parent := Append(old(extents)[parent], Entry(name, id))]
      ensures r == IOERR ==>
        var fileMade := getOk && parent in old(extents) && IsFile(id) && putFileOk;
        extents == if fileMade then old(extents)[id := ""] else old(extents)
      ensures getOk && parent in old(extents) && putFileOk && 0x8000_0000 <= id < 0x1_0000_0000 && id != parent ==>
        id in extents && extents[id] == ""
      ensures id < 0x8000_0000 && id != parent ==> (id in extents <==> id in old(extents))
    {
      if !getOk || parent !in extents { return IOERR; }
      var dirContent := extents[parent];
      if IsFile(id) {
        if !putFileOk { return IOERR; }
        extents := extents[id := ""];
      }
      if dirContent != [] { dirContent := dirContent + [COLON]; }
      dirContent := dirContent + name + [COLON] + Print(id);
      if !putDirOk || |dirContent| > MAX_EXTENT { return IOERR; }
      extents := extents[parent := dirContent];
      r := OK;
    }

    method GetDirContent(id: Inum, getOk: bool) returns (r: Status, es: seq<Entry>)
      ensures r == OK <==> getOk && id in extents
      ensures es == if r == OK then Parse(extents[id]) else []
    {
      if !getOk || id !in extents { return IOERR, []; }
      es := ScanContent(extents[id]);
      ScanIsParse(extents[id]);
      r := OK;
    }

    /** `None` is an uninitialised number. */
    method Ilookup(parent: Inum, name: string, getOk: bool) returns (id: Option<Inum>)
      ensures id == if getOk && parent in extents then ReadId(SearchText(extents[parent], name)) else Some(0)
    {
      if !getOk || parent !in extents { return Some(0); }
      id := SearchContent(extents[parent], name);
    }
  }

  lemma TextGrows(es: seq<Entry>, e: Entry)
    ensures Text(es + [e]) == Append(Text(es), e)
  {
    assert (es + [e])[..|es|] == es;
  }

  /** The entries that fit: each one is refused if the text would grow too large with it. */
  function Kept(es: seq<Entry>): (kept: seq<Entry>) {
    if es == [] then []
    else
      var kept := Kept(es[..|es| - 1]);
      if |Append(Text(kept), Last(es))| <= MAX_EXTENT then kept + [Last(es)] else kept
  }

  /** As long as the whole text fits, all entries are kept. */
  lemma {:induction false} AllAreKept(es: seq<Entry>)
    requires |Text(es)| <= MAX_EXTENT
    ensures Kept(es) == es
  {
    if es == [] {
    } else {
      AllAreKept(es[..|es| - 1]);
      assert es == es[..|es| - 1] + [Last(es)];
    }
  }

  /** Every file among the entries has an empty extent, and below the files there is only the root. */
  ghost predicate HasFiles(extents: map<Inum, string>, es: seq<Entry>) {
    && (forall i :: 0 <= i < |es| && 0x8000_0000 <= es[i].id < 0x1_0000_0000 ==>
          es[i].id in extents && extents[es[i].id] == "")
    && (forall id :: id in extents && id < 0x8000_0000 ==> id == 1)
  }

  lemma OneMoreFile(before: map<Inum, string>, after: map<Inum, string>, es: seq<Entry>, e: Entry, text: string)
    requires HasFiles(before, es)
    requires var made := if IsFile(e.id) then before[e.id := ""] else before;
      after == made || after == made[1 := text]
    ensures HasFiles(after, es + [e])
  {
  }

  lemma KeptGrows(es: seq<Entry>, e: Entry)
    ensures var text := Text(Kept(es));
      Text(Kept(es + [e])) == if |Append(text, e)| <= MAX_EXTENT then Append(text, e) else text
  {
    assert (es + [e])[..|es|] == es;
    TextGrows(Kept(es), e);
  }

  lemma RootGrows(before: map<Inum, string>, after: map<Inum, string>, es: seq<Entry>, e: Entry)
    requires 1 in before && before[1] == Text(Kept(es)) && HasFiles(before, es)
    requires var made, text := if IsFile(e.id) then before[e.id := ""] else before, Append(before[1], e);
      after == if |text| <= MAX_EXTENT then made[1 := text] else made
    ensures 1 in after && after[1] == Text(Kept(es + [e])) && HasFiles(after, es + [e])
  {
    OneMoreFile(before, after, es, e, Append(before[1], e));
    KeptGrows(es, e);
    assert !IsFile(1);
  }

  /** Any sequence of entries created in the empty root directory, which is then listed. */
  method CreateAll(es: seq<Entry>) returns (client: YfsClient, listed: seq<Entry>)
    ensures fresh(client) && 1 in client.extents && client.extents[1] == Text(Kept(es))
    ensures |Text(es)| <= MAX_EXTENT ==> client.extents[1] == Text(es)
    ensures HasFiles(client.extents, es)
    ensures var kept := Kept(es);
      listed == kept <==> kept == [] || (ColonFree(kept) && (LastIdIsWhole(kept) || Last(kept).id == 0))
  {
    client := FillRoot(es);
    if |Text(es)| <= MAX_EXTENT { AllAreKept(es); }
    var status;
    status, listed := client.GetDirContent(1, true);
    ParseIsExactIff(Kept(es));
  }

  method FillRoot(es: seq<Entry>) returns (client: YfsClient)
    ensures fresh(client) && 1 in client.extents && client.extents[1] == Text(Kept(es))
    ensures HasFiles(client.extents, es)
  {
    client := new YfsClient();
    for i := 0 to |es|
      invariant fresh(client) && 1 in client.extents && client.extents[1] == Text(Kept(es[..i]))
      invariant HasFiles(client.extents, es[..i])
    {
      ghost var before := client.extents;
      var r := client.Create(1, es[i].id, es[i].name, true, true, true);
      assert es[..i + 1] == es[..i] + [es[i]];
      RootGrows(before, client.extents, es[..i], es[i]);
    }
    assert es[..|es|] == es;
  }
}
