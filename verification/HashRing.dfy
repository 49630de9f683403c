// A consistent-hash ring of 16384 virtual nodes at the multiples of 2^18. Servers take 64
// hash points each, and every other virtual node belongs to the server before it.

module HashRing {
  import opened Bits

  const MAGIC: u32 := 4294705152
  const VNODE_SIZE: u32 := 262144
  const VNODE_NUM := 16384
  const NODE2VNODE := 64

  datatype Error = OK | NotOk | Exists | NotExist | Conf

  // ---- positions on the ring

  // The virtual node of a hash: its high 14 bits
  function VnodeOf(h: u32): u32 {
    And32(h, MAGIC)
  }

  function IndexOf(h: u32): nat {
    h / VNODE_SIZE
  }

  lemma HighBits(h: u32)
    ensures VnodeOf(h) == IndexOf(h) * VNODE_SIZE && IndexOf(h) < VNODE_NUM
  {
    Pow2Values();
    assert Pow2(18) == VNODE_SIZE;
    var lo, hi := h % VNODE_SIZE, h / VNODE_SIZE;
    var masked := hi * VNODE_SIZE;
    forall i | 0 <= i < 32 ensures Bit(VnodeOf(h), i) == Bit(masked, i) {
      MaskBit(i);
      BitOfConcat(lo, hi, 18, i);
      BitOfConcat(0, hi, 18, i);
      BitOfZero(i);
    }
    SameBits(VnodeOf(h), masked, 32);
  }

  lemma MaskBit(i: nat)
    requires i < 32
    ensures Bit(MAGIC, i) == (i >= 18)
  {
    Pow2Values();
    assert Pow2(18) == VNODE_SIZE;
    assert Pow2(14) - 1 == 16383;
    assert MAGIC == 0 + 16383 * Pow2(18);
    BitOfConcat(0, 16383, 18, i);
    BitOfZero(i);
    if i >= 18 { BitOfMask(14, i - 18); }
  }

  // d places back around the ring
  function Back(i: nat, d: nat): (j: nat)
    requires i < VNODE_NUM && d <= VNODE_NUM
    ensures j < VNODE_NUM
  {
    if d <= i then i - d else i + VNODE_NUM - d
  }

  // ---- what filling the ring means

  type Ring = r: seq<string> | |r| == VNODE_NUM witness seq(VNODE_NUM, i => "")

  predicate AllEmpty(r: Ring) {
    forall i :: 0 <= i < VNODE_NUM ==> r[i] == ""
  }

  predicate AllFull(r: Ring) {
    forall i :: 0 <= i < VNODE_NUM ==> r[i] != ""
  }

  // The nearest occupied place at or before i is d places back.
  predicate NearestBack(r: Ring, i: nat, d: nat)
    requires i < VNODE_NUM
  {
    && d < VNODE_NUM
    && r[Back(i, d)] != ""
    && forall e :: 0 <= e < d ==> r[Back(i, e)] == ""
  }

  // Every place of r' holds what the nearest occupied place at or before it holds in r.
  ghost predicate Fills(r: Ring, r': Ring) {
    forall i :: 0 <= i < VNODE_NUM ==> FilledAt(r, r', i)
  }

  ghost predicate FilledAt(r: Ring, r': Ring, i: nat)
    requires i < VNODE_NUM
  {
    exists d :: NearestBack(r, i, d) && r'[i] == r[Back(i, d)]
  }

  // The ring names the server somewhere.
  predicate Names(r: Ring, node: string) {
    exists j :: 0 <= j < VNODE_NUM && r[j] == node
  }

  lemma NearestIsUnique(r: Ring, i: nat, d: nat, e: nat)
    requires i < VNODE_NUM && NearestBack(r, i, d) && NearestBack(r, i, e)
    ensures d == e
  {
  }

  lemma FillsOnce(r: Ring, a: Ring, b: Ring)
    requires Fills(r, a) && Fills(r, b)
    ensures a == b
  {
    forall i | 0 <= i < VNODE_NUM ensures a[i] == b[i] {
      assert FilledAt(r, a, i) && FilledAt(r, b, i);
      var d :| NearestBack(r, i, d) && a[i] == r[Back(i, d)];
      var e :| NearestBack(r, i, e) && b[i] == r[Back(i, e)];
      NearestIsUnique(r, i, d, e);
    }
  }

  // In order of the places: each takes the server of the last occupied place up to it, and
  // those before the first occupied place that of the last one of all.
  lemma FillsInOrder(r: Ring, r': Ring, i: nat, j: nat)
    requires Fills(r, r') && i < VNODE_NUM && j < VNODE_NUM && r[j] != ""
    ensures j <= i && (forall k :: j < k <= i ==> r[k] == "") ==> r'[i] == r[j]
    ensures i < j && (forall k :: 0 <= k < VNODE_NUM && (k <= i || k > j) ==> r[k] == "") ==> r'[i] == r[j]
  {
    assert FilledAt(r, r', i);
    var d :| NearestBack(r, i, d) && r'[i] == r[Back(i, d)];
    var e := if j <= i then i - j else i + VNODE_NUM - j;
    assert Back(i, e) == j;
    if j <= i {
      if forall k :: j < k <= i ==> r[k] == "" { NearestIs(r, i, d, e); }
    } else if forall k :: 0 <= k < VNODE_NUM && (k <= i || k > j) ==> r[k] == "" {
      NearestIs(r, i, d, e);
    }
  }

  lemma NearestIs(r: Ring, i: nat, d: nat, e: nat)
    requires i < VNODE_NUM && NearestBack(r, i, d) && e < VNODE_NUM && r[Back(i, e)] != ""
    requires forall c :: 0 <= c < e ==> r[Back(i, c)] == ""
    ensures d == e
  {
    NearestIsUnique(r, i, d, e);
  }

  // Filling keeps occupied places, fills every other, and brings in no new name.
  lemma FillsKeeps(r: Ring, r': Ring)
    requires Fills(r, r')
    ensures forall i :: 0 <= i < VNODE_NUM && r[i] != "" ==> r'[i] == r[i]
    ensures AllFull(r')
    ensures forall i :: 0 <= i < VNODE_NUM ==> Names(r, r'[i])
    ensures AllFull(r) ==> r' == r
  {
    forall i | 0 <= i < VNODE_NUM
      ensures r'[i] != "" && Names(r, r'[i])
    {
      assert FilledAt(r, r', i);
      var d :| NearestBack(r, i, d) && r'[i] == r[Back(i, d)];
      assert r[Back(i, d)] == r'[i];
    }
    forall i | 0 <= i < VNODE_NUM && r[i] != "" ensures r'[i] == r[i] {
      assert FilledAt(r, r', i);
      var d :| NearestBack(r, i, d) && r'[i] == r[Back(i, d)];
      assert NearestBack(r, i, 0);
      NearestIsUnique(r, i, d, 0);
    }
  }

  // ---- servers

  // lbase::String::toString of a number below 64
  function Decimal(i: nat): string
    requires i < NODE2VNODE
  {
    if i < 10 then [Digit(i)] else [Digit(i / 10), Digit(i % 10)]
  }

  function Digit(d: nat): char
    requires d < 10
  {
    "0123456789"[d]
  }

  predicate AllDigits(s: string) {
    forall i :: 0 <= i < |s| ==> '0' <= s[i] <= '9'
  }

  // The number a string of digits stands for in base ten
  function ValueOf(s: string): nat
    requires AllDigits(s)
  {
    if s == "" then 0 else 10 * ValueOf(s[..|s| - 1]) + (s[|s| - 1] as int - '0' as int)
  }

  lemma DigitValue(d: nat)
    requires d < 10
    ensures '0' <= Digit(d) <= '9' && Digit(d) as int - '0' as int == d
  {
    assert "0123456789"[0] == '0' && "0123456789"[1] == '1' && "0123456789"[2] == '2' && "0123456789"[3] == '3';
    assert "0123456789"[4] == '4' && "0123456789"[5] == '5' && "0123456789"[6] == '6' && "0123456789"[7] == '7';
  }

  lemma OneDigitMore(s: string, d: nat)
    requires AllDigits(s) && d < 10
    ensures AllDigits(s + [Digit(d)]) && ValueOf(s + [Digit(d)]) == 10 * ValueOf(s) + d
  {
    DigitValue(d);
    assert (s + [Digit(d)])[..|s|] == s;
  }

  // A number in base ten, without a zero before it
  predicate IsNumeral(s: string) {
    s != "" && AllDigits(s) && (|s| > 1 ==> s[0] != '0')
  }

  lemma DecimalReads(i: nat)
    requires i < 64
    ensures IsNumeral(Decimal(i)) && ValueOf(Decimal(i)) == i
  {
    hide Digit, ValueOf;
    DigitValue(i % 10);
    DigitValue(i / 10);
    assert ValueOf("") == 0 by { ValueOfNothing(); }
    if i < 10 {
      OneDigitMore("", i);
      assert Decimal(i) == "" + [Digit(i)];
    } else {
      OneDigitMore("", i / 10);
      OneDigitMore([Digit(i / 10)], i % 10);
      assert [Digit(i / 10)] == "" + [Digit(i / 10)];
      assert Decimal(i) == [Digit(i / 10)] + [Digit(i % 10)];
    }
  }

  lemma ValueOfNothing()
    ensures ValueOf("") == 0
  {
  }

  // One numeral only stands for each number.
  lemma {:induction false} NumeralsAgree(s: string, t: string)
    requires IsNumeral(s) && IsNumeral(t) && ValueOf(s) == ValueOf(t)
    ensures s == t
  {
    hide ValueOf;
    var a, b := s[..|s| - 1], t[..|t| - 1];
    LastDigit(s);
    LastDigit(t);
    if a == "" || b == "" {
      ValueOfNothing();
      if a != "" { NotZero(a); }
      if b != "" { NotZero(b); }
    } else {
      NumeralsAgree(a, b);
    }
    assert s == a + [s[|s| - 1]] && t == b + [t[|t| - 1]];
  }

  lemma LastDigit(s: string)
    requires s != "" && AllDigits(s)
    ensures var a, d := s[..|s| - 1], s[|s| - 1] as int - '0' as int;
      AllDigits(a) && ValueOf(s) == 10 * ValueOf(a) + d && 0 <= d < 10
  {
  }

  lemma {:induction false} NotZero(s: string)
    requires s != "" && AllDigits(s) && s[0] != '0'
    ensures ValueOf(s) > 0
  {
    if |s| > 1 { NotZero(s[..|s| - 1]); }
  }

  // The 64 strings hashed for a server are different.
  lemma HashedStringsDiffer(node: string, i: nat, j: nat)
    requires i < j < 64
    ensures node + Decimal(i) != node + Decimal(j)
  {
    hide Decimal;
    DecimalReads(i);
    DecimalReads(j);
    assert (node + Decimal(i))[|node|..] == Decimal(i) && (node + Decimal(j))[|node|..] == Decimal(j);
  }

  // The server's i-th hash point; the hash function itself is arbitrary
  function Point(crc: string -> u32, node: string, i: nat): (p: nat)
    requires i < NODE2VNODE
    ensures p < VNODE_NUM
  {
    IndexOf(crc(node + Decimal(i)))
  }

  predicate IsPoint(crc: string -> u32, node: string, j: nat) {
    exists i :: 0 <= i < NODE2VNODE && Point(crc, node, i) == j
  }

  // A server's hash points, in numbers: the multiples of 2^18 at or below the checksums of
  // its name followed by a number from 0 to 63.
  lemma PointsOfSuffixes(crc: string -> u32, node: string, j: nat)
    ensures IsPoint(crc, node, j) <==>
      exists t :: IsNumeral(t) && ValueOf(t) < 64 && crc(node + t) / 262144 == j
  {
    hide Decimal, ValueOf;
    forall i | 0 <= i < 64 ensures IsNumeral(Decimal(i)) && ValueOf(Decimal(i)) == i { DecimalReads(i); }
    forall t | IsNumeral(t) && ValueOf(t) < 64 ensures t == Decimal(ValueOf(t)) {
      NumeralsAgree(t, Decimal(ValueOf(t)));
    }
    if t :| IsNumeral(t) && ValueOf(t) < 64 && crc(node + t) / 262144 == j {
      assert Point(crc, node, ValueOf(t)) == j;
    }
  }

  // The server written at its hash points
  function Placed(crc: string -> u32, r: Ring, node: string): Ring {
    seq(VNODE_NUM, j requires 0 <= j < VNODE_NUM => if IsPoint(crc, node, j) then node else r[j])
  }

  // The server's hash points and everything it owns emptied
  function Cleared(crc: string -> u32, r: Ring, node: string): Ring {
    seq(VNODE_NUM, j requires 0 <= j < VNODE_NUM => if IsPoint(crc, node, j) || r[j] == node then "" else r[j])
  }

  // ---- what the operations do, and to what

  // A ring with every empty place filled, or left as it is when nothing is occupied
  ghost function FillOf(r: Ring): (f: Ring)
    ensures AllEmpty(r) ==> f == r
    ensures !AllEmpty(r) ==> Fills(r, f)
  {
    if AllEmpty(r) then r
    else
      FillExists(r);
      var f: Ring :| Fills(r, f);
      f
  }

  // The nearest occupied place before i, searching no further than n back
  function Search(r: Ring, i: nat, d: nat): (n: nat)
    requires i < VNODE_NUM && d <= VNODE_NUM
    requires forall e :: 0 <= e < d ==> r[Back(i, e)] == ""
    ensures n < VNODE_NUM ==> NearestBack(r, i, n)
    ensures n >= VNODE_NUM ==> forall e :: 0 <= e < VNODE_NUM ==> r[Back(i, e)] == ""
    decreases VNODE_NUM - d
  {
    if d == VNODE_NUM then d else if r[Back(i, d)] != "" then d else Search(r, i, d + 1)
  }

  lemma SomeNearest(r: Ring, i: nat)
    requires i < VNODE_NUM && !AllEmpty(r)
    ensures Search(r, i, 0) < VNODE_NUM
  {
    var j :| 0 <= j < VNODE_NUM && r[j] != "";
    var e := if j <= i then i - j else i + VNODE_NUM - j;
    assert Back(i, e) == j;
  }

  lemma FillExists(r: Ring)
    requires !AllEmpty(r)
    ensures exists f: Ring :: Fills(r, f)
  {
    forall i | 0 <= i < VNODE_NUM ensures Search(r, i, 0) < VNODE_NUM { SomeNearest(r, i); }
    var f: Ring := seq(VNODE_NUM, i requires 0 <= i < VNODE_NUM => r[Back(i, Search(r, i, 0))]);
    forall i | 0 <= i < VNODE_NUM ensures FilledAt(r, f, i) {
      assert NearestBack(r, i, Search(r, i, 0));
    }
    assert Fills(r, f);
  }

  // Adding a server: the ring, the live servers, and the result
  ghost function AddedLL(crc: string -> u32, r: Ring, live: set<string>, node: string): (Ring, set<string>, Error) {
    if node == "" then (r, live, NotOk)
    else if node in live then (r, live, Exists)
    else (Placed(crc, r, node), live + {node}, OK)
  }

  ghost function Added(crc: string -> u32, r: Ring, live: set<string>, node: string): (Ring, set<string>, Error) {
    var (r', live', rc) := AddedLL(crc, r, live, node);
    if rc != OK then (r', live', rc) else (FillOf(r'), live', if AllEmpty(r') then Conf else OK)
  }

  // Removing one
  ghost function WithoutLL(crc: string -> u32, r: Ring, live: set<string>, node: string): (Ring, set<string>, Error) {
    if node == "" then (r, live, NotOk)
    else if node !in live then (r, live, NotExist)
    else (Cleared(crc, r, node), live - {node}, OK)
  }

  ghost function Without(crc: string -> u32, r: Ring, live: set<string>, node: string): (Ring, set<string>, Error) {
    var (r', live', rc) := WithoutLL(crc, r, live, node);
    if rc != OK then (r', live', rc) else (FillOf(r'), live', if AllEmpty(r') then Conf else OK)
  }

  ghost function LoadedRing(crc: string -> u32, r: Ring, live: set<string>, nodes: seq<string>): (Ring, set<string>) {
    if nodes == [] then (r, live)
    else
      var (r', live') := LoadedRing(crc, r, live, nodes[..|nodes| - 1]);
      var (r'', live'', rc) := AddedLL(crc, r', live', nodes[|nodes| - 1]);
      (r'', live'')
  }

  // ---- what every run keeps

  // All places filled, with live servers, or all empty
  ghost predicate RingOk(r: Ring, live: set<string>) {
    && "" !in live
    && (AllFull(r) || AllEmpty(r))
    && NamesOnly(r, live)
  }

  ghost predicate NamesOnly(r: Ring, live: set<string>) {
    forall j :: 0 <= j < VNODE_NUM ==> r[j] == "" || r[j] in live
  }

  lemma FillOfOk(r: Ring, live: set<string>)
    requires NamesOnly(r, live)
    ensures AllFull(FillOf(r)) || AllEmpty(FillOf(r))
    ensures NamesOnly(FillOf(r), live)
  {
    if !AllEmpty(r) {
      var f := FillOf(r);
      FillsKeeps(r, f);
      forall j | 0 <= j < VNODE_NUM ensures f[j] in live { assert Names(r, f[j]); }
    }
  }

  // A successful addition to a full ring changes only the new server's hash points, all to
  // the new server; any addition leaves the ring filled with live servers or empty.
  lemma AdditionDisrupts(crc: string -> u32, r: Ring, live: set<string>, node: string)
    requires RingOk(r, live)
    ensures var (r', live', rc) := Added(crc, r, live, node);
      && RingOk(r', live')
      && (rc == OK <==> node != "" && node !in live)
      && (rc != OK ==> r' == r && live' == live)
      && (rc == OK ==> AllFull(r'))
      && (rc == OK && AllFull(r) ==>
           forall j :: 0 <= j < VNODE_NUM ==> r'[j] == if IsPoint(crc, node, j) then node else r[j])
  {
    if node != "" && node !in live {
      var placed := Placed(crc, r, node);
      assert placed[Point(crc, node, 0)] == node by { assert IsPoint(crc, node, Point(crc, node, 0)); }
      FillOfOk(placed, live + {node});
      FillsKeeps(placed, FillOf(placed));
    }
  }

  // A removal from a full ring changes only places the server owned or hashed to, and
  // leaves it nowhere; any removal leaves the ring filled with live servers or empty.
  lemma RemovalDisrupts(crc: string -> u32, r: Ring, live: set<string>, node: string)
    requires RingOk(r, live)
    ensures var (r', live', rc) := Without(crc, r, live, node);
      && RingOk(r', live')
      && (rc == NotOk <==> node == "") && (rc == NotExist <==> node != "" && node !in live)
      && (rc == OK || rc == Conf ==> node !in live')
      && (rc == Conf <==> (node in live && node != ""
                       && forall j :: 0 <= j < VNODE_NUM ==> r[j] == "" || r[j] == node || IsPoint(crc, node, j)))
      && (rc == Conf ==> AllEmpty(r')) && (rc == OK ==> AllFull(r'))
      && (rc == OK ==> forall j :: 0 <= j < VNODE_NUM ==>
           r'[j] != node && (r'[j] == r[j] || r[j] == node || IsPoint(crc, node, j)))
  {
    if node != "" && node in live {
      var cleared := Cleared(crc, r, node);
      ClearedEmpty(crc, r, node);
      FillOfOk(cleared, live - {node});
      if !AllEmpty(cleared) { FillsKeeps(cleared, FillOf(cleared)); }
    }
  }

  lemma ClearedEmpty(crc: string -> u32, r: Ring, node: string)
    ensures AllEmpty(Cleared(crc, r, node))
       <==> forall j :: 0 <= j < VNODE_NUM ==> r[j] == "" || r[j] == node || IsPoint(crc, node, j)
  {
    hide IsPoint;
    var c := Cleared(crc, r, node);
    assert forall j :: 0 <= j < VNODE_NUM ==>
      (c[j] == "" <==> r[j] == "" || r[j] == node || IsPoint(crc, node, j));
  }

  // Removal also empties the hash points that another server has taken since: the whole ring,
  // although a server is still live, exactly if the other has no hash point of its own.
  lemma CollisionEmptiesRing(crc: string -> u32, a: string, b: string)
    requires a != "" && b != "" && a != b
    ensures var empty: Ring := seq(VNODE_NUM, i => "");
      var (r, live) := RunOps(crc, empty, {}, [Add(a), Add(b), Remove(a)]);
      && live == {b}
      && (AllEmpty(r) <==> forall j :: 0 <= j < VNODE_NUM && IsPoint(crc, b, j) ==> IsPoint(crc, a, j))
  {
    hide FillOf, IsPoint;
    var empty: Ring := seq(VNODE_NUM, i => "");
    var (r1, live1, rc1) := Added(crc, empty, {}, a);
    AdditionDisrupts(crc, empty, {}, a);
    var (r2, live2, rc2) := Added(crc, r1, live1, b);
    AdditionDisrupts(crc, r1, live1, b);
    var (r3, live3, rc3) := Without(crc, r2, live2, a);
    RemovalDisrupts(crc, r2, live2, a);
    var ops := [Add(a), Add(b), Remove(a)];
    assert ops[..2] == [Add(a), Add(b)] && ops[..2][..1] == [Add(a)] && ops[..2][..1][..0] == [];
    assert RunOps(crc, empty, {}, ops[..2][..1]) == (r1, live1);
    assert RunOps(crc, empty, {}, ops[..2]) == (r2, live2);
  }

  // So it is for two names with one checksum: the checksum of a longer name depends only on
  // the checksum of its beginning and on the rest.
  lemma EqualChecksums(crc: string -> u32, goOn: (u32, string) -> u32, a: string, b: string)
    requires forall name, rest :: crc(name + rest) == goOn(crc(name), rest)
    requires a != "" && b != "" && a != b && crc(a) == crc(b)
    ensures AllEmpty(RunOps(crc, seq(VNODE_NUM, i => ""), {}, [Add(a), Add(b), Remove(a)]).0)
  {
    hide RunOps;
    CollisionEmptiesRing(crc, a, b);
    forall j | 0 <= j < VNODE_NUM && IsPoint(crc, b, j) ensures IsPoint(crc, a, j) {
      var i :| 0 <= i < NODE2VNODE && Point(crc, b, i) == j;
      assert Point(crc, a, i) == j;
    }
  }

  datatype Op = Add(node: string) | Remove(node: string)

  ghost function RunOps(crc: string -> u32, r: Ring, live: set<string>, ops: seq<Op>): (Ring, set<string>) {
    if ops == [] then (r, live)
    else
      var (r', live') := RunOps(crc, r, live, ops[..|ops| - 1]);
      match ops[|ops| - 1]
      case Add(node) => (Added(crc, r', live', node).0, Added(crc, r', live', node).1)
      case Remove(node) => (Without(crc, r', live', node).0, Without(crc, r', live', node).1)
  }

  // After any run of additions and removals the ring is all filled, with live servers only,
  // or all empty; so a lookup finds a live server for every key or for none.
  lemma {:induction false} RunKeepsRing(crc: string -> u32, r: Ring, live: set<string>, ops: seq<Op>)
    requires RingOk(r, live)
    ensures RingOk(RunOps(crc, r, live, ops).0, RunOps(crc, r, live, ops).1)
  {
    if ops != [] {
      RunKeepsRing(crc, r, live, ops[..|ops| - 1]);
      var (r', live') := RunOps(crc, r, live, ops[..|ops| - 1]);
      match ops[|ops| - 1]
      case Add(node) => AdditionDisrupts(crc, r', live', node);
      case Remove(node) => RemovalDisrupts(crc, r', live', node);
    }
  }

  // Servers placed one after the other on a ring that names only live ones: so does the
  // result, every new name is live, and none but them.
  lemma {:induction false} LoadedNames(crc: string -> u32, r: Ring, live: set<string>, nodes: seq<string>)
    requires NamesOnly(r, live) && "" !in live
    ensures var (r', live') := LoadedRing(crc, r, live, nodes);
      && NamesOnly(r', live')
      && live' == live + (set n | n in nodes && n != "")
      && (live' != live || !AllEmpty(r) ==> !AllEmpty(r'))
  {
    if nodes != [] {
      var init, node := nodes[..|nodes| - 1], nodes[|nodes| - 1];
      LoadedNames(crc, r, live, init);
      var (r', live') := LoadedRing(crc, r, live, init);
      assert nodes == init + [node];
      if node != "" && node !in live' { PlacedNames(crc, r', live', node); }
    }
  }

  lemma PlacedNames(crc: string -> u32, r: Ring, live: set<string>, node: string)
    requires NamesOnly(r, live) && node != ""
    ensures NamesOnly(Placed(crc, r, node), live + {node}) && !AllEmpty(Placed(crc, r, node))
  {
    assert IsPoint(crc, node, Point(crc, node, 0));
    assert Placed(crc, r, node)[Point(crc, node, 0)] == node;
  }

  ghost predicate NewServers(live: set<string>, nodes: seq<string>) {
    && (forall a, b :: 0 <= a < b < |nodes| ==> nodes[a] != nodes[b])
    && forall a :: 0 <= a < |nodes| ==> nodes[a] != "" && nodes[a] !in live
  }

  // New servers are placed one after the other.
  lemma {:induction false} LoadedNext(crc: string -> u32, r: Ring, live: set<string>, nodes: seq<string>)
    requires NewServers(live, nodes)
    ensures forall n :: n in LoadedRing(crc, r, live, nodes).1 <==> n in live || n in nodes
    ensures nodes != [] ==>
      var (before, _) := LoadedRing(crc, r, live, nodes[..|nodes| - 1]);
      LoadedRing(crc, r, live, nodes).0 == Placed(crc, before, nodes[|nodes| - 1])
  {
    hide Placed;
    if nodes != [] {
      LoadedNext(crc, r, live, nodes[..|nodes| - 1]);
      InitAndLast(nodes);
    }
  }

  // The last one with this hash point has it.
  lemma {:induction false} LoadedLast(crc: string -> u32, r: Ring, live: set<string>, nodes: seq<string>,
                                      j: nat, k: nat)
    requires j < VNODE_NUM && NewServers(live, nodes) && k < |nodes| && IsPoint(crc, nodes[k], j)
    requires forall m :: k < m < |nodes| ==> !IsPoint(crc, nodes[m], j)
    ensures LoadedRing(crc, r, live, nodes).0[j] == nodes[k]
  {
    hide IsPoint, Placed, LoadedRing;
    var n := |nodes| - 1;
    LoadedNext(crc, r, live, nodes);
    PlacedAt(crc, LoadedRing(crc, r, live, nodes[..n]).0, nodes[n], j);
    if k < n { LoadedLast(crc, r, live, nodes[..n], j, k); }
  }

  lemma InitAndLast(nodes: seq<string>)
    requires nodes != [] && forall i, k :: 0 <= i < k < |nodes| ==> nodes[i] != nodes[k]
    ensures var init, node := nodes[..|nodes| - 1], nodes[|nodes| - 1];
      node !in init && forall n :: n in nodes <==> n in init || n == node
  {
    assert nodes == nodes[..|nodes| - 1] + [nodes[|nodes| - 1]];
  }

  lemma PlacedAt(crc: string -> u32, r: Ring, node: string, j: nat)
    requires j < VNODE_NUM
    ensures Placed(crc, r, node)[j] == if IsPoint(crc, node, j) then node else r[j]
  {
  }

  // The configured ring, filled: it is full if any server is configured, names only those,
  // and stays in order over any run of additions and removals.
  lemma LoadedRingOk(crc: string -> u32, r: Ring, live: set<string>, nodes: seq<string>)
    requires NamesOnly(r, live) && "" !in live
    ensures var (r', live') := LoadedRing(crc, r, live, nodes);
      && RingOk(FillOf(r'), live')
      && (live' != live ==> AllFull(FillOf(r')))
  {
    LoadedNames(crc, r, live, nodes);
    var (r', live') := LoadedRing(crc, r, live, nodes);
    FillOfOk(r', live');
    if !AllEmpty(r') { FillsKeeps(r', FillOf(r')); }
  }

  lemma ConfiguredRunKeepsRing(crc: string -> u32, nodes: seq<string>, ops: seq<Op>)
    ensures var empty: Ring := seq(VNODE_NUM, i => "");
      var (r, live) := LoadedRing(crc, empty, {}, nodes);
      RingOk(RunOps(crc, FillOf(r), live, ops).0, RunOps(crc, FillOf(r), live, ops).1)
  {
    var empty: Ring := seq(VNODE_NUM, i => "");
    LoadedRingOk(crc, empty, {}, nodes);
    var (r, live) := LoadedRing(crc, empty, {}, nodes);
    RunKeepsRing(crc, FillOf(r), live, ops);
  }

  // A server takes no more than 64 places by hashing.
  function Points(crc: string -> u32, node: string): set<nat> {
    PointsTo(crc, node, NODE2VNODE)
  }

  function PointsTo(crc: string -> u32, node: string, n: nat): set<nat>
    requires n <= NODE2VNODE
  {
    set i | 0 <= i < n :: Point(crc, node, i)
  }

  lemma AtMost64Points(crc: string -> u32, node: string)
    ensures |Points(crc, node)| <= NODE2VNODE
    ensures forall j :: IsPoint(crc, node, j) <==> j in Points(crc, node)
  {
    PointsUpTo(crc, node, NODE2VNODE);
  }

  lemma {:induction false} PointsUpTo(crc: string -> u32, node: string, n: nat)
    requires n <= NODE2VNODE
    ensures |PointsTo(crc, node, n)| <= n
  {
    if n == 0 {
      assert PointsTo(crc, node, 0) == {};
    } else {
      PointsUpTo(crc, node, n - 1);
      OneMorePoint(crc, node, n - 1);
    }
  }

  lemma OneMorePoint(crc: string -> u32, node: string, n: nat)
    requires n < NODE2VNODE
    ensures PointsTo(crc, node, n + 1) == PointsTo(crc, node, n) + {Point(crc, node, n)}
  {
    hide Point;
  }

  // ---- the ring object

  class Hash {
    const crc: string -> u32
    var vnodelist: map<u32, string>  // a missing virtual node reads as ""
    var nodelist: map<string, bool>  // a missing server reads as false

    constructor (crc: string -> u32)
      ensures this.crc == crc && vnodelist == map[] && nodelist == map[]
    {
      this.crc := crc;
      vnodelist, nodelist := map[], map[];
    }

    function View(): Ring
      reads this`vnodelist
    {
      RingOf(vnodelist)
    }

    function Live(): set<string>
      reads this`nodelist
    {
      set n | n in nodelist && nodelist[n]
    }

    // The server of a key: the lookup in location()
    method Lookup(key: string) returns (node: string)
      ensures node == View()[IndexOf(crc(key))]
    {
      HighBits(crc(key));
      node := At(vnodelist, VnodeOf(crc(key)));
    }

    method AddServer(node: string) returns (rc: Error)
      modifies this
      ensures (View(), Live(), rc) == Added(crc, old(View()), old(Live()), node)
    {
      hide FillOf, Placed;
      rc := AddServerLL(node);
      if rc != OK { return; }
      rc := Flush();
      FillOfFlush(Placed(crc, old(View()), node), View(), rc);
    }

    method RemoveServer(node: string) returns (rc: Error)
      modifies this
      ensures (View(), Live(), rc) == Without(crc, old(View()), old(Live()), node)
    {
      hide FillOf, Cleared;
      rc := RemoveServerLL(node);
      if rc != OK { return; }
      rc := Flush();
      FillOfFlush(Cleared(crc, old(View()), node), View(), rc);
    }

    // The ring of the configured servers, filled once at the end
    method Load(nodes: seq<string>)
      modifies this
      ensures View() == FillOf(LoadedRing(crc, old(View()), old(Live()), nodes).0)
      ensures Live() == LoadedRing(crc, old(View()), old(Live()), nodes).1
      ensures NamesOnly(old(View()), old(Live())) && "" !in old(Live()) ==>
        && RingOk(View(), Live())
        && Live() == old(Live()) + (set n | n in nodes && n != "")
        && (Live() != old(Live()) ==> AllFull(View()))
    {
      hide FillOf, Placed, RingOk, NamesOnly;
      for i := 0 to |nodes|
        invariant (View(), Live()) == LoadedRing(crc, old(View()), old(Live()), nodes[..i])
      {
        assert nodes[..i + 1][..i] == nodes[..i];
        var rc := AddServerLL(nodes[i]);
      }
      assert nodes[..|nodes|] == nodes;
      ghost var r := View();
      var rc := Flush();
      FillOfFlush(r, View(), rc);
      if NamesOnly(old(View()), old(Live())) && "" !in old(Live()) {
        LoadedNames(crc, old(View()), old(Live()), nodes);
        LoadedRingOk(crc, old(View()), old(Live()), nodes);
      }
    }

    method AddServerLL(node: string) returns (rc: Error)
      modifies this
      ensures (View(), Live(), rc) == AddedLL(crc, old(View()), old(Live()), node)
    {
      if node == "" { return NotOk; }
      if node in nodelist && nodelist[node] { return Exists; }
      nodelist := nodelist[node := true];
      ghost var r := View();
      NonePlaced(crc, r, node);
      for i := 0 to NODE2VNODE
        invariant View() == PlacedTo(crc, r, node, i)
        invariant Live() == old(Live()) + {node}
      {
        var h := crc(node + Decimal(i));
        HighBits(h);
        RingUpdate(vnodelist, IndexOf(h), node);
        vnodelist := vnodelist[VnodeOf(h) := node];
      }
      AllPlaced(crc, r, node);
      return OK;
    }

    method RemoveServerLL(node: string) returns (rc: Error)
      modifies this
      ensures (View(), Live(), rc) == WithoutLL(crc, old(View()), old(Live()), node)
    {
      if node == "" { return NotOk; }
      if !(node in nodelist && nodelist[node]) { return NotExist; }
      ghost var r := View();
      NonePlaced(crc, r, "");
      for i := 0 to NODE2VNODE
        invariant View() == EmptiedTo(crc, r, node, i)
        invariant Live() == old(Live()) && nodelist == old(nodelist)
      {
        var h := crc(node + Decimal(i));
        HighBits(h);
        RingUpdate(vnodelist, IndexOf(h), "");
        vnodelist := vnodelist[VnodeOf(h) := ""];
      }
      ClearOwned(node, r);
      nodelist := nodelist[node := false];
      assert Live() == old(Live()) - {node};
      return OK;
    }

    // The second part of removal: empties what the server still owns.
    method ClearOwned(node: string, ghost r: Ring)
      requires node != "" && View() == EmptiedTo(crc, r, node, NODE2VNODE)
      modifies this`vnodelist
      ensures View() == Cleared(crc, r, node)
    {
      ghost var now := View();
      var vnode: u32 := 0;
      ghost var k := 0;
      while vnode <= MAGIC
        invariant 0 <= k < VNODE_NUM && vnode == k * VNODE_SIZE
        invariant View() == OwnedCleared(now, node, k)
        decreases VNODE_NUM - k
      {
        ClearedOneMore(now, node, k);
        RingUpdate(vnodelist, k, "");
        assert View()[k] == At(vnodelist, vnode);
        if At(vnodelist, vnode) == node { vnodelist := vnodelist[vnode := ""]; }
        if vnode == MAGIC { break; }
        vnode := Add32(vnode, VNODE_SIZE);
        k := k + 1;
      }
      AllCleared(crc, r, now, node);
    }

    // The first loop of flush: the first occupied virtual node, or the one at 0
    method FirstOccupied() returns (firstVnode: u32)
      ensures var f := IndexOf(firstVnode);
        && firstVnode == f * VNODE_SIZE && f < VNODE_NUM
        && (View()[f] == "" ==> AllEmpty(View()))
        && forall k :: 0 <= k < f ==> View()[k] == ""
    {
      ghost var r := View();
      firstVnode := 0;
      var vnode: u32 := 0;
      ghost var f := 0;
      while vnode <= MAGIC
        invariant 0 <= f < VNODE_NUM && vnode == f * VNODE_SIZE && firstVnode == 0
        invariant forall k :: 0 <= k < f ==> r[k] == ""
        decreases VNODE_NUM - f
      {
        assert r[f] == At(vnodelist, f * VNODE_SIZE);
        if At(vnodelist, vnode) != "" {
          firstVnode := vnode;
          break;
        }
        if vnode == MAGIC { break; }
        vnode := Add32(vnode, VNODE_SIZE);
        f := f + 1;
      }
    }

    // Gives every empty virtual node the server of the nearest occupied one before it.
    method Flush() returns (rc: Error)
      modifies this`vnodelist
      ensures rc == Conf <==> AllEmpty(old(View()))
      ensures rc == Conf ==> View() == old(View())
      ensures rc != Conf ==> rc == OK && Fills(old(View()), View())
    {
      hide Fills;
      var firstVnode := FirstOccupied();
      ghost var f := IndexOf(firstVnode);
      assert View()[f] == At(vnodelist, f * VNODE_SIZE);
      if At(vnodelist, firstVnode) == "" { return Conf; }
      Refill(firstVnode, f);
      return OK;
    }

    // The second loop: once around the ring, each empty place taking the last server seen
    method Refill(firstVnode: u32, ghost f: nat)
      requires f < VNODE_NUM && firstVnode == f * VNODE_SIZE && View()[f] != ""
      modifies this`vnodelist
      ensures Fills(old(View()), View())
    {
      hide Fills, FilledTo, RingOf;
      ghost var r := View();
      var tmp := firstVnode;
      var vnode := Add32(firstVnode, VNODE_SIZE);
      ghost var k, t: nat := 1, f;
      StartFill(r, f);
      AheadNext(f, 1);
      AheadOne(f);
      while vnode <= MAGIC
        invariant 1 <= k <= VNODE_NUM && t < VNODE_NUM && tmp == t * VNODE_SIZE
        invariant vnode == Ahead(f, k) * VNODE_SIZE
        invariant FilledTo(r, View(), f, k, t)
        decreases VNODE_NUM - k
      {
        AheadNext(f, k);
        if vnode == firstVnode { break; }
        tmp, t := FillOne(vnode, tmp, r, f, k, t);
        k := k + 1;
        vnode := Add32(vnode, VNODE_SIZE);
      }
      FilledRound(r, View(), f, k, t);
    }

    // One turn: an occupied place is the next to take from, an empty one takes.
    method FillOne(vnode: u32, tmp: u32, ghost r: Ring, ghost f: nat, ghost k: nat, ghost t: nat)
      returns (tmp': u32, ghost t': nat)
      requires f < VNODE_NUM && 1 <= k < VNODE_NUM && t < VNODE_NUM
      requires vnode == Ahead(f, k) * VNODE_SIZE && tmp == t * VNODE_SIZE
      requires FilledTo(r, View(), f, k, t)
      modifies this`vnodelist
      ensures t' < VNODE_NUM && tmp' == t' * VNODE_SIZE && FilledTo(r, View(), f, k + 1, t')
    {
      SourceKept(r, View(), f, k, t);
      hide FilledTo;
      ghost var p := Ahead(f, k);
      tmp', t' := tmp, t;
      if At(vnodelist, vnode) != "" {
        OccupiedNext(r, View(), f, k, t);
        tmp', t' := vnode, p;
      } else {
        EmptyNext(r, View(), f, k, t);
        RingUpdate(vnodelist, p, At(vnodelist, tmp));
        vnodelist := vnodelist[vnode := At(vnodelist, tmp)];
      }
    }
  }

  function At(m: map<u32, string>, v: u32): string {
    if v in m then m[v] else ""
  }

  function RingOf(m: map<u32, string>): Ring {
    seq(VNODE_NUM, i requires 0 <= i < VNODE_NUM => At(m, i * VNODE_SIZE))
  }

  lemma RingUpdate(m: map<u32, string>, p: nat, node: string)
    requires p < VNODE_NUM
    ensures RingOf(m[p * VNODE_SIZE := node]) == RingOf(m)[p := node]
  {
  }

  // ---- steps of the fill

  // k places ahead around the ring
  function Ahead(f: nat, k: nat): (p: nat)
    requires f < VNODE_NUM && k <= VNODE_NUM
    ensures p < VNODE_NUM
  {
    if f + k < VNODE_NUM then f + k else f + k - VNODE_NUM
  }

  lemma AheadNext(f: nat, k: nat)
    requires f < VNODE_NUM && 1 <= k <= VNODE_NUM
    ensures Ahead(f, k) * VNODE_SIZE == f * VNODE_SIZE <==> k == VNODE_NUM
    ensures k < VNODE_NUM ==> Add32(Ahead(f, k) * VNODE_SIZE, VNODE_SIZE) == Ahead(f, k + 1) * VNODE_SIZE
  {
  }

  lemma AheadOne(f: nat)
    requires f < VNODE_NUM
    ensures Add32(f * VNODE_SIZE, VNODE_SIZE) == Ahead(f, 1) * VNODE_SIZE
  {
  }

  // The k places from f on are filled, the last of them from place t; the others are as
  // they were.
  ghost predicate FilledTo(r: Ring, now: Ring, f: nat, k: nat, t: nat)
    requires f < VNODE_NUM && k <= VNODE_NUM
  {
    && 1 <= k && t < VNODE_NUM && r[f] != ""
    && (forall e :: 0 <= e < k ==> FilledAt(r, now, Ahead(f, e)))
    && (forall e :: k <= e < VNODE_NUM ==> now[Ahead(f, e)] == r[Ahead(f, e)])
    && (exists d :: LastFrom(r, f, k, t, d))
  }

  // The last filled place took its value from place t, d places back and not before f.
  predicate LastFrom(r: Ring, f: nat, k: nat, t: nat, d: nat)
    requires f < VNODE_NUM && 1 <= k <= VNODE_NUM
  {
    d < k && NearestBack(r, Ahead(f, k - 1), d) && Back(Ahead(f, k - 1), d) == t
  }

  lemma StartFill(r: Ring, f: nat)
    requires f < VNODE_NUM && r[f] != ""
    ensures FilledTo(r, r, f, 1, f)
  {
    assert NearestBack(r, f, 0);
    assert Ahead(f, 0) == f;
    assert LastFrom(r, f, 1, f, 0);
  }

  lemma OccupiedNext(r: Ring, now: Ring, f: nat, k: nat, t: nat)
    requires f < VNODE_NUM && k < VNODE_NUM && FilledTo(r, now, f, k, t)
    requires now[Ahead(f, k)] != ""
    ensures now[Ahead(f, k)] == r[Ahead(f, k)]
    ensures FilledTo(r, now, f, k + 1, Ahead(f, k))
  {
    assert NearestBack(r, Ahead(f, k), 0);
    assert LastFrom(r, f, k + 1, Ahead(f, k), 0);
  }

  lemma EmptyNext(r: Ring, now: Ring, f: nat, k: nat, t: nat)
    requires f < VNODE_NUM && k < VNODE_NUM && FilledTo(r, now, f, k, t)
    requires now[Ahead(f, k)] == "" && now[t] == r[t]
    ensures t != Ahead(f, k)
    ensures FilledTo(r, now[Ahead(f, k) := now[t]], f, k + 1, t)
  {
    var p := Ahead(f, k);
    var now' := now[p := now[t]];
    var d: nat :| LastFrom(r, f, k, t, d);
    NearestMovesOn(r, f, k, d);
    assert LastFrom(r, f, k + 1, t, d + 1);
    forall e | 0 <= e < k + 1 ensures FilledAt(r, now', Ahead(f, e)) {
      if e < k {
        assert Ahead(f, e) != p;
        assert FilledAt(r, now, Ahead(f, e));
      }
    }
    forall e | k + 1 <= e < VNODE_NUM ensures now'[Ahead(f, e)] == r[Ahead(f, e)] {
      assert Ahead(f, e) != p;
    }
  }

  // The place taken from is occupied, and so was filled with its own server.
  lemma SourceKept(r: Ring, now: Ring, f: nat, k: nat, t: nat)
    requires f < VNODE_NUM && k <= VNODE_NUM && FilledTo(r, now, f, k, t)
    ensures now[t] == r[t]
  {
    var d: nat :| LastFrom(r, f, k, t, d);
    var e := k - 1 - d;
    assert Ahead(f, e) == t && FilledAt(r, now, Ahead(f, e));
    var c :| NearestBack(r, t, c) && now[t] == r[Back(t, c)];
    assert NearestBack(r, t, 0);
    NearestIsUnique(r, t, c, 0);
  }

  lemma NearestMovesOn(r: Ring, f: nat, k: nat, d: nat)
    requires f < VNODE_NUM && 1 <= k < VNODE_NUM && d < k
    requires NearestBack(r, Ahead(f, k - 1), d) && r[Ahead(f, k)] == ""
    ensures NearestBack(r, Ahead(f, k), d + 1) && Back(Ahead(f, k), d + 1) == Back(Ahead(f, k - 1), d)
  {
    forall e | 0 <= e < d + 1 ensures r[Back(Ahead(f, k), e)] == "" {
      if e > 0 { assert Back(Ahead(f, k), e) == Back(Ahead(f, k - 1), e - 1); }
    }
  }

  lemma FilledRound(r: Ring, now: Ring, f: nat, k: nat, t: nat)
    requires f < VNODE_NUM && k == VNODE_NUM && FilledTo(r, now, f, k, t)
    ensures Fills(r, now)
  {
    forall i | 0 <= i < VNODE_NUM ensures FilledAt(r, now, i) {
      var e := if i >= f then i - f else i + VNODE_NUM - f;
      assert Ahead(f, e) == i;
      assert FilledAt(r, now, Ahead(f, e));
    }
  }

  lemma FillOfFlush(r: Ring, r': Ring, rc: Error)
    requires rc == Conf <==> AllEmpty(r)
    requires rc == Conf ==> r' == r
    requires rc != Conf ==> rc == OK && Fills(r, r')
    ensures r' == FillOf(r)
    ensures rc == if AllEmpty(r) then Conf else OK
  {
    if !AllEmpty(r) { FillsOnce(r, r', FillOf(r)); }
  }

  // ---- steps of placing and clearing

  function PlacedTo(crc: string -> u32, r: Ring, node: string, n: nat): Ring
    requires n <= NODE2VNODE
  {
    if n == 0 then r else PlacedTo(crc, r, node, n - 1)[Point(crc, node, n - 1) := node]
  }

  function EmptiedTo(crc: string -> u32, r: Ring, node: string, n: nat): Ring
    requires n <= NODE2VNODE
  {
    if n == 0 then r else EmptiedTo(crc, r, node, n - 1)[Point(crc, node, n - 1) := ""]
  }

  lemma NonePlaced(crc: string -> u32, r: Ring, node: string)
    ensures PlacedTo(crc, r, node, 0) == r
  {
  }

  lemma {:induction false} PlacedToAt(crc: string -> u32, r: Ring, node: string, n: nat, j: nat)
    requires n <= NODE2VNODE && j < VNODE_NUM
    ensures PlacedTo(crc, r, node, n)[j]
         == if exists i :: 0 <= i < n && Point(crc, node, i) == j then node else r[j]
  {
    hide Point;
    if n > 0 {
      PlacedToAt(crc, r, node, n - 1, j);
      assert Point(crc, node, n - 1) < VNODE_NUM;
    }
  }

  lemma {:induction false} EmptiedToAt(crc: string -> u32, r: Ring, node: string, n: nat, j: nat)
    requires n <= NODE2VNODE && j < VNODE_NUM
    ensures EmptiedTo(crc, r, node, n)[j]
         == if exists i :: 0 <= i < n && Point(crc, node, i) == j then "" else r[j]
  {
    hide Point;
    if n > 0 {
      EmptiedToAt(crc, r, node, n - 1, j);
      assert Point(crc, node, n - 1) < VNODE_NUM;
    }
  }

  lemma AllPlaced(crc: string -> u32, r: Ring, node: string)
    ensures PlacedTo(crc, r, node, NODE2VNODE) == Placed(crc, r, node)
  {
    forall j | 0 <= j < VNODE_NUM ensures PlacedTo(crc, r, node, NODE2VNODE)[j] == Placed(crc, r, node)[j] {
      PlacedToAt(crc, r, node, NODE2VNODE, j);
    }
  }

  // What the clean-up has done before place k
  function OwnedCleared(r: Ring, node: string, k: nat): Ring {
    seq(VNODE_NUM, j requires 0 <= j < VNODE_NUM => if j < k && r[j] == node then "" else r[j])
  }

  lemma ClearedOneMore(r: Ring, node: string, k: nat)
    requires k < VNODE_NUM
    ensures OwnedCleared(r, node, k)[k] == r[k]
    ensures OwnedCleared(r, node, k + 1) ==
      if r[k] == node then OwnedCleared(r, node, k)[k := ""] else OwnedCleared(r, node, k)
    ensures OwnedCleared(r, node, 0) == r
  {
  }

  lemma AllCleared(crc: string -> u32, r: Ring, now: Ring, node: string)
    requires now == EmptiedTo(crc, r, node, NODE2VNODE) && node != ""
    ensures OwnedCleared(now, node, VNODE_NUM) == Cleared(crc, r, node)
  {
    forall j | 0 <= j < VNODE_NUM ensures OwnedCleared(now, node, VNODE_NUM)[j] == Cleared(crc, r, node)[j] {
      EmptiedToAt(crc, r, node, NODE2VNODE, j);
    }
  }
}
