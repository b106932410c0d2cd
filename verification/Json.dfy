/** JSON documents as trees, the compact encoding's length, and access by path. */
module Json {
  import opened Text

  datatype Json =
    | Null
    | Bool(b: bool)
    | Int(n: int)
    | Float(text: string)
    | Str(s: string)
    | Arr(items: seq<Json>)
    | Obj(members: seq<Member>)

  /** One entry of a dict; a dict lists its entries in insertion order. */
  datatype Member = Member(key: string, value: Json)

  datatype Part = Key(k: string) | Index(i: nat)
  type Path = seq<Part>

  /** A Python dict never holds one key twice. */
  predicate UniqueKeys(ms: seq<Member>) {
    forall i, j :: 0 <= i < j < |ms| ==> ms[i].key != ms[j].key
  }

  predicate WellFormed(j: Json) {
    match j
    case Arr(items) => forall i :: 0 <= i < |items| ==> WellFormed(items[i])
    case Obj(ms) => UniqueKeys(ms) && forall i :: 0 <= i < |ms| ==> WellFormed(ms[i].value)
    case _ => true
  }

  // ----- the length of the compact UTF-8 encoding -----

  function CharBytes(c: char): nat {
    if c == '"' || c == '\\' || c == '\n' || c == '\r' || c == '\t' || c == 8 as char || c == 12 as char then 2
    else if ' ' <= c <= '~' then 1
    else if c as int < 0x10000 then 6
    else 12
  }

  function CharsBytes(s: string): nat {
    if s == [] then 0 else CharBytes(s[0]) + CharsBytes(s[1..])
  }

  function StrBytes(s: string): nat { 2 + CharsBytes(s) }

  function WireBytes(j: Json): nat
    decreases j, 1
  {
    match j
    case Null => 4
    case Bool(b) => if b then 4 else 5
    case Int(n) => |IntText(n)|
    case Float(text) => |text|
    case Str(s) => StrBytes(s)
    case Arr(items) => 2 + ItemsBytes(items)
    case Obj(ms) => 2 + MembersBytes(ms)
  }

  function ItemsBytes(items: seq<Json>): nat
    decreases items, 0
  {
    if items == [] then 0
    else WireBytes(items[0]) + (if |items| > 1 then 1 else 0) + ItemsBytes(items[1..])
  }

  function MembersBytes(ms: seq<Member>): nat
    decreases ms, 0
  {
    if ms == [] then 0
    else StrBytes(ms[0].key) + 1 + WireBytes(ms[0].value) + (if |ms| > 1 then 1 else 0) + MembersBytes(ms[1..])
  }

  // ----- the encoding itself -----

  function HexDigit(d: nat): char
    requires d < 16
  {
    if d < 10 then DigitChar(d) else ('a' as int + d - 10) as char
  }

  function UnicodeEscape(n: nat): string
    requires n < 0x10000
  {
    "\\u" + [HexDigit(n / 0x1000), HexDigit(n / 0x100 % 0x10), HexDigit(n / 0x10 % 0x10), HexDigit(n % 0x10)]
  }

  function EncodeChar(c: char): string {
    if c == '"' then "\\\""
    else if c == '\\' then "\\\\"
    else if c == '\n' then "\\n"
    else if c == '\r' then "\\r"
    else if c == '\t' then "\\t"
    else if c == 8 as char then "\\b"
    else if c == 12 as char then "\\f"
    else if ' ' <= c <= '~' then [c]
    else if c as int < 0x10000 then UnicodeEscape(c as int)
    else
      var v := c as int - 0x10000;
      UnicodeEscape(0xD800 + v / 0x400) + UnicodeEscape(0xDC00 + v % 0x400)
  }

  function EncodeChars(s: string): string { if s == [] then [] else EncodeChar(s[0]) + EncodeChars(s[1..]) }

  function EncodeStr(s: string): string { "\"" + EncodeChars(s) + "\"" }

  /** `json.dumps(j, separators=(",", ":"))` */
  function Encode(j: Json): string
    decreases j, 1
  {
    match j
    case Null => "null"
    case Bool(b) => if b then "true" else "false"
    case Int(n) => IntText(n)
    case Float(text) => text
    case Str(s) => EncodeStr(s)
    case Arr(items) => "[" + EncodeItems(items) + "]"
    case Obj(ms) => "{" + EncodeMembers(ms) + "}"
  }

  function EncodeItems(items: seq<Json>): string
    decreases items, 0
  {
    if items == [] then ""
    else if |items| == 1 then Encode(items[0])
    else Encode(items[0]) + "," + EncodeItems(items[1..])
  }

  function EncodeMember(m: Member): string
    decreases m, 2
  {
    EncodeStr(m.key) + ":" + Encode(m.value)
  }

  function EncodeMembers(ms: seq<Member>): string
    decreases ms, 0
  {
    if ms == [] then ""
    else if |ms| == 1 then EncodeMember(ms[0])
    else EncodeMember(ms[0]) + "," + EncodeMembers(ms[1..])
  }

  lemma {:induction false} CharsLength(s: string)
    ensures |EncodeChars(s)| == CharsBytes(s)
  {
    if s != [] { CharsLength(s[1..]); }
  }

  /** `wire_bytes` is the length of the encoding, which is ASCII but for what a float prints as. */
  lemma {:induction false} WireBytesIsLength(j: Json)
    ensures |Encode(j)| == WireBytes(j)
    decreases j, 1
  {
    match j {
      case Str(s) => CharsLength(s);
      case Arr(items) => ItemsLength(items);
      case Obj(ms) => MembersLength(ms);
      case _ =>
    }
  }

  lemma {:induction false} ItemsLength(items: seq<Json>)
    ensures |EncodeItems(items)| == ItemsBytes(items)
    decreases items, 0
  {
    if items != [] {
      WireBytesIsLength(items[0]);
      ItemsLength(items[1..]);
    }
  }

  lemma {:induction false} MembersLength(ms: seq<Member>)
    ensures |EncodeMembers(ms)| == MembersBytes(ms)
    decreases ms, 0
  {
    if ms != [] {
      CharsLength(ms[0].key);
      WireBytesIsLength(ms[0].value);
      MembersLength(ms[1..]);
    }
  }

  // ----- dict operations -----

  /** `d.get(k)` */
  function Get(ms: seq<Member>, k: string): Option<Json> {
    if ms == [] then None
    else if ms[0].key == k then Some(ms[0].value)
    else Get(ms[1..], k)
  }

  /** `d[k] = v`: in place when `k` is present, else at the end. */
  function Set(ms: seq<Member>, k: string, v: Json): seq<Member> {
    if ms == [] then [Member(k, v)]
    else if ms[0].key == k then [Member(k, v)] + ms[1..]
    else [ms[0]] + Set(ms[1..], k, v)
  }

  /** `d.pop(k, None)` */
  function Remove(ms: seq<Member>, k: string): seq<Member> {
    if ms == [] then []
    else if ms[0].key == k then ms[1..]
    else [ms[0]] + Remove(ms[1..], k)
  }

  lemma {:induction false} GetAt(ms: seq<Member>, i: nat)
    requires UniqueKeys(ms) && i < |ms|
    ensures Get(ms, ms[i].key) == Some(ms[i].value)
  {
    if i > 0 { GetAt(ms[1..], i - 1); }
  }

  lemma {:induction false} GetFinds(ms: seq<Member>, k: string) returns (i: nat)
    requires Get(ms, k).Some?
    ensures i < |ms| && ms[i] == Member(k, Get(ms, k).value)
  {
    if ms[0].key == k { i := 0; } else { i := GetFinds(ms[1..], k); i := i + 1; }
  }

  lemma {:induction false} GetMisses(ms: seq<Member>, k: string)
    ensures Get(ms, k) == None <==> forall i :: 0 <= i < |ms| ==> ms[i].key != k
  {
    if ms != [] {
      GetMisses(ms[1..], k);
      assert forall i :: 0 < i < |ms| ==> ms[i] == ms[1..][i - 1];
      if forall i :: 0 <= i < |ms| ==> ms[i].key != k {
        assert forall i :: 0 <= i < |ms[1..]| ==> ms[1..][i] == ms[i + 1];
      }
    }
  }

  ghost predicate AllWellFormed(ms: seq<Member>) {
    forall i :: 0 <= i < |ms| ==> WellFormed(ms[i].value)
  }

  lemma {:induction false} SetGets(ms: seq<Member>, k: string, v: Json, l: string)
    ensures Get(Set(ms, k, v), l) == if l == k then Some(v) else Get(ms, l)
  {
    if ms != [] {
      if ms[0].key == k {
        assert ([Member(k, v)] + ms[1..])[1..] == ms[1..];
      } else {
        SetGets(ms[1..], k, v, l);
        assert ([ms[0]] + Set(ms[1..], k, v))[1..] == Set(ms[1..], k, v);
      }
    }
  }

  lemma {:induction false} SetMembers(ms: seq<Member>, k: string, v: Json, m: Member)
    requires m in Set(ms, k, v)
    ensures m == Member(k, v) || m in ms
  {
    if ms != [] && ms[0].key != k {
      assert m == ms[0] || m in Set(ms[1..], k, v);
      if m != ms[0] { SetMembers(ms[1..], k, v, m); }
    }
  }

  lemma {:induction false} SetKeepsUnique(ms: seq<Member>, k: string, v: Json)
    requires UniqueKeys(ms)
    ensures UniqueKeys(Set(ms, k, v))
  {
    if ms != [] && ms[0].key != k {
      var rest := Set(ms[1..], k, v);
      SetKeepsUnique(ms[1..], k, v);
      forall i | 0 <= i < |rest| ensures rest[i].key != ms[0].key {
        SetMembers(ms[1..], k, v, rest[i]);
        if rest[i] in ms[1..] {
          var n :| 0 <= n < |ms[1..]| && ms[1..][n] == rest[i];
          assert ms[n + 1] == rest[i];
        }
      }
    }
  }

  lemma SetFacts(ms: seq<Member>, k: string, v: Json)
    requires UniqueKeys(ms) && AllWellFormed(ms) && WellFormed(v)
    ensures UniqueKeys(Set(ms, k, v)) && AllWellFormed(Set(ms, k, v))
    ensures forall l :: Get(Set(ms, k, v), l) == if l == k then Some(v) else Get(ms, l)
  {
    hide WellFormed, Set, Get;
    SetKeepsUnique(ms, k, v);
    forall l ensures Get(Set(ms, k, v), l) == if l == k then Some(v) else Get(ms, l) { SetGets(ms, k, v, l); }
    var all := Set(ms, k, v);
    forall i | 0 <= i < |all| ensures WellFormed(all[i].value) {
      SetMembers(ms, k, v, all[i]);
    }
  }

  lemma {:induction false} RemoveFacts(ms: seq<Member>, k: string)
    requires UniqueKeys(ms) && AllWellFormed(ms)
    ensures UniqueKeys(Remove(ms, k)) && AllWellFormed(Remove(ms, k))
    ensures forall l :: Get(Remove(ms, k), l) == if l == k then None else Get(ms, l)
    ensures forall i :: 0 <= i < |Remove(ms, k)| ==> exists n :: 0 <= n < |ms| && ms[n] == Remove(ms, k)[i]
  {
    if ms != [] && ms[0].key != k {
      var rest := Remove(ms[1..], k);
      RemoveFacts(ms[1..], k);
      forall i | 0 <= i < |rest|
        ensures exists n :: 0 < n < |ms| && ms[n] == rest[i]
      {
        var n :| 0 <= n < |ms[1..]| && ms[1..][n] == rest[i];
        assert ms[n + 1] == rest[i];
      }
      var all := [ms[0]] + rest;
      assert Remove(ms, k) == all && all[1..] == rest;
      forall i | 0 <= i < |all| ensures exists n :: 0 <= n < |ms| && ms[n] == all[i] {
        if i > 0 { assert all[i] == rest[i - 1]; }
      }
    } else if ms != [] {
      GetMisses(ms[1..], k);
      assert forall i :: 0 <= i < |ms[1..]| ==> ms[1..][i] == ms[i + 1];
    }
  }

  /** Replacing one value changes the encoded length by exactly the difference of the two values. */
  lemma {:induction false} SetBytes(ms: seq<Member>, k: string, v: Json, w: Json)
    ensures MembersBytes(Set(ms, k, v)) - WireBytes(v) == MembersBytes(Set(ms, k, w)) - WireBytes(w)
    ensures |Set(ms, k, v)| == |Set(ms, k, w)|
  {
    if ms != [] && ms[0].key != k {
      SetBytes(ms[1..], k, v, w);
      assert ([ms[0]] + Set(ms[1..], k, v))[1..] == Set(ms[1..], k, v);
      assert ([ms[0]] + Set(ms[1..], k, w))[1..] == Set(ms[1..], k, w);
    } else if ms != [] {
      assert ([Member(k, v)] + ms[1..])[1..] == ms[1..];
      assert ([Member(k, w)] + ms[1..])[1..] == ms[1..];
    }
  }

  lemma {:induction false} SetTwice(ms: seq<Member>, k: string, v: Json, w: Json)
    ensures Set(Set(ms, k, v), k, w) == Set(ms, k, w)
  {
    if ms != [] && ms[0].key != k {
      SetTwice(ms[1..], k, v, w);
      assert ([ms[0]] + Set(ms[1..], k, v))[1..] == Set(ms[1..], k, v);
    } else if ms != [] {
      assert ([Member(k, v)] + ms[1..])[1..] == ms[1..];
    }
  }

  lemma {:induction false} SetCommutes(ms: seq<Member>, k: string, v: Json, l: string, w: Json)
    requires k != l && Get(ms, l).Some?
    ensures Set(Set(ms, k, v), l, w) == Set(Set(ms, l, w), k, v)
  {
    if ms[0].key == k {
      assert ([Member(k, v)] + ms[1..])[1..] == ms[1..];
      assert ([Member(k, ms[0].value)] + Set(ms[1..], l, w))[1..] == Set(ms[1..], l, w);
    } else if ms[0].key == l {
      assert ([Member(l, w)] + ms[1..])[1..] == ms[1..];
      assert ([ms[0]] + Set(ms[1..], k, v))[1..] == Set(ms[1..], k, v);
    } else {
      SetCommutes(ms[1..], k, v, l, w);
      assert ([ms[0]] + Set(ms[1..], k, v))[1..] == Set(ms[1..], k, v);
      assert ([ms[0]] + Set(ms[1..], l, w))[1..] == Set(ms[1..], l, w);
    }
  }

  lemma {:induction false} RemoveSetCommutes(ms: seq<Member>, k: string, v: Json, l: string)
    requires k != l
    ensures Remove(Set(ms, k, v), l) == Set(Remove(ms, l), k, v)
  {
    if ms == [] {
      assert [Member(k, v)][1..] == [];
    } else if ms[0].key == k {
      assert ([Member(k, v)] + ms[1..])[1..] == ms[1..];
      assert ([ms[0]] + Remove(ms[1..], l))[1..] == Remove(ms[1..], l);
    } else if ms[0].key == l {
      assert ([ms[0]] + Set(ms[1..], k, v))[1..] == Set(ms[1..], k, v);
    } else {
      RemoveSetCommutes(ms[1..], k, v, l);
      assert ([ms[0]] + Set(ms[1..], k, v))[1..] == Set(ms[1..], k, v);
      assert ([ms[0]] + Remove(ms[1..], l))[1..] == Remove(ms[1..], l);
    }
  }

  // ----- paths -----

  function Child(j: Json, part: Part): Option<Json> {
    match (j, part)
    case (Obj(ms), Key(k)) => Get(ms, k)
    case (Arr(items), Index(i)) => if i < |items| then Some(items[i]) else None
    case _ => None
  }

  function Lookup(j: Json, p: Path): Option<Json>
    decreases |p|
  {
    if p == [] then Some(j)
    else match Child(j, p[0])
      case None => None
      case Some(c) => Lookup(c, p[1..])
  }

  predicate Container(j: Json) { j.Arr? || j.Obj? || j.Str? }

  /** `del`-ing a key along a path; None where the Python code would raise. */
  function Delete(j: Json, p: Path): Option<Json>
    decreases |p|
  {
    if p == [] then None
    else if |p| == 1 then
      if j.Obj? && p[0].Key? then Some(Obj(Remove(j.members, p[0].k))) else None
    else
      match Child(j, p[0])
      case None => None
      case Some(c) =>
        match Delete(c, p[1..])
        case None => None
        case Some(c') => Some(Put(j, p[0], c'))
  }

  function Put(j: Json, part: Part, c: Json): Json
    requires Child(j, part).Some?
  {
    if j.Obj? then Obj(Set(j.members, part.k, c)) else Arr(j.items[part.i := c])
  }

  lemma ChildWellFormed(j: Json, part: Part)
    requires WellFormed(j) && Child(j, part).Some?
    ensures WellFormed(Child(j, part).value)
  {
    if j.Obj? { var i := GetFinds(j.members, part.k); }
  }

  lemma PutFacts(j: Json, part: Part, c: Json)
    requires WellFormed(j) && Child(j, part).Some? && WellFormed(c)
    ensures WellFormed(Put(j, part, c))
    ensures Child(Put(j, part, c), part) == Some(c)
    ensures forall o :: o != part ==> Child(Put(j, part, c), o) == Child(j, o)
  {
    if j.Obj? { SetFacts(j.members, part.k, c); }
  }

  lemma {:induction false} LookupAppend(j: Json, p: Path, q: Path)
    ensures Lookup(j, p + q) == match Lookup(j, p) case None => None case Some(c) => Lookup(c, q)
    decreases |p|
  {
    if p == [] {
      assert p + q == q;
    } else {
      assert (p + q)[1..] == p[1..] + q;
      match Child(j, p[0]) {
        case None =>
        case Some(c) => LookupAppend(c, p[1..], q);
      }
    }
  }

  ghost predicate SameKind(a: Json, b: Json) {
    (a.Obj? == b.Obj?) && (a.Arr? == b.Arr?) && (!a.Obj? && !a.Arr? ==> a == b)
  }

  ghost predicate Unrelated(p: Path, q: Path) { !(p <= q) && !(q <= p) }

  lemma PrefixTail(p: Path, q: Path)
    requires p != [] && q != [] && p[0] == q[0]
    ensures (p <= q) == (p[1..] <= q[1..])
  {
    assert p == [p[0]] + p[1..] && q == [q[0]] + q[1..];
    if p[1..] <= q[1..] {
      assert q == [q[0]] + p[1..] + q[1..][|p| - 1..];
    }
    if p <= q {
      assert q[1..][..|p| - 1] == p[1..];
    }
  }

  /** What one deletion does to every other path: it removes the subtree, nothing else. */
  lemma {:induction false} DeleteFrame(j: Json, p: Path, q: Path)
    requires WellFormed(j) && Delete(j, p).Some?
    ensures var j' := Delete(j, p).value;
      && WellFormed(j')
      && (p <= q ==> Lookup(j', q) == None)
      && (Unrelated(p, q) ==> Lookup(j', q) == Lookup(j, q))
      && (q < p ==> Lookup(j, q).Some? && Lookup(j', q).Some? && SameKind(Lookup(j, q).value, Lookup(j', q).value))
    decreases |p|
  {
    var j' := Delete(j, p).value;
    if |p| == 1 {
      RemoveFacts(j.members, p[0].k);
      if p <= q { assert q[0] == p[0]; }
      if q < p { assert q == []; }
      if Unrelated(p, q) {
        assert q != [];
        assert p == [p[0]] && q == [q[0]] + q[1..];
        assert q[0] != p[0];
      }
    } else {
      var c := Child(j, p[0]).value;
      var c' := Delete(c, p[1..]).value;
      ChildWellFormed(j, p[0]);
      if q == [] {
        DeleteFrame(c, p[1..], []);
        PutFacts(j, p[0], c');
        assert q <= p;
      } else if q[0] == p[0] {
        DeleteFrame(c, p[1..], q[1..]);
        PutFacts(j, p[0], c');
        PrefixTail(p, q);
        PrefixTail(q, p);
      } else {
        DeleteFrame(c, p[1..], []);
        PutFacts(j, p[0], c');
      }
    }
  }

  /** A path that leads somewhere and ends in a key can always be deleted. */
  lemma {:induction false} DeleteSucceeds(j: Json, p: Path)
    requires p != [] && p[|p| - 1].Key? && Lookup(j, p).Some?
    ensures Delete(j, p).Some?
    decreases |p|
  {
    if |p| > 1 {
      assert p[1..][|p| - 2] == p[|p| - 1];
      DeleteSucceeds(Child(j, p[0]).value, p[1..]);
    }
  }

  /** Deleting several paths, one after the other. */
  function DeleteAll(j: Json, ps: seq<Path>): Option<Json>
    decreases |ps|
  {
    if ps == [] then Some(j)
    else match Delete(j, ps[0])
      case None => None
      case Some(j') => DeleteAll(j', ps[1..])
  }

  ghost predicate Deletable(j: Json, ps: seq<Path>) {
    && (forall i :: 0 <= i < |ps| ==> ps[i] != [] && ps[i][|ps[i]| - 1].Key? && Lookup(j, ps[i]).Some?)
    && (forall i, k :: 0 <= i < k < |ps| ==> Unrelated(ps[i], ps[k]))
  }

  lemma {:induction false} DeleteAllFrame(j: Json, ps: seq<Path>, q: Path)
    requires WellFormed(j) && Deletable(j, ps)
    ensures DeleteAll(j, ps).Some?
    ensures var j' := DeleteAll(j, ps).value;
      && WellFormed(j')
      && ((exists p :: p in ps && p <= q) ==> Lookup(j', q) == None)
      && ((forall p :: p in ps ==> Unrelated(p, q)) ==> Lookup(j', q) == Lookup(j, q))
      && ((forall p :: p in ps ==> !(p <= q)) ==>
           Lookup(j, q).Some? == Lookup(j', q).Some?
           && (Lookup(j, q).Some? ==> SameKind(Lookup(j, q).value, Lookup(j', q).value)))
    decreases |ps|
  {
    if ps != [] {
      DeleteSucceeds(j, ps[0]);
      var j1 := Delete(j, ps[0]).value;
      DeleteFrame(j, ps[0], q);
      forall i | 0 <= i < |ps[1..]| ensures Lookup(j1, ps[1..][i]).Some? {
        assert Unrelated(ps[0], ps[i + 1]);
        DeleteFrame(j, ps[0], ps[i + 1]);
      }
      DeleteAllFrame(j1, ps[1..], q);
      if exists p :: p in ps && p <= q {
        var p :| p in ps && p <= q;
        assert p == ps[0] || p in ps[1..];
      }
      assert forall p :: p in ps[1..] ==> p in ps;
    }
  }

  lemma {:induction false} DeleteAllStep(j: Json, ps: seq<Path>, p: Path)
    ensures DeleteAll(j, ps + [p]) == match DeleteAll(j, ps) case None => None case Some(t) => Delete(t, p)
    decreases |ps|
  {
    if ps == [] {
      assert [p][1..] == [] && ps + [p] == [p];
    } else {
      assert (ps + [p])[1..] == ps[1..] + [p];
      match Delete(j, ps[0]) {
        case None =>
        case Some(t) => DeleteAllStep(t, ps[1..], p);
      }
    }
  }
}
