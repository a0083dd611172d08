/** The fee estimate of `qos-core/src/lib.rs`, in the program's integer widths. */
module Fee {
  import opened Wrappers
  import opened Basics
  import opened Metas
  import opened Packets

  const SET_CU_LIMIT: Byte := 0x2
  const SET_CU_PRICE: Byte := 0x3
  const MAX_CHECKED: nat := 8
  const DEFAULT_CUS: nat := 200_000

  datatype TransactionFee = TransactionFee(cuPrice: nat, totalFee: nat, requestedCus: nat)

  /** Little-endian bytes as a number. */
  function LittleEndian(bytes: seq<Byte>): (n: nat) {
    if bytes == [] then 0 else bytes[0] + 0x100 * LittleEndian(bytes[1..])
  }

  function Pow256(n: nat): nat {
    if n == 0 then 1 else 0x100 * Pow256(n - 1)
  }

  lemma {:induction false} LittleEndianBound(bytes: seq<Byte>)
    ensures LittleEndian(bytes) < Pow256(|bytes|)
  {
    if bytes != [] {
      LittleEndianBound(bytes[1..]);
    }
  }

  predicate IsBudget(view: TransactionView, budgetId: nat, ix: Instruction) {
    ix.programIdIndex < |view.staticAccountKeys| && view.staticAccountKeys[ix.programIdIndex] == budgetId
  }

  /** The first compute unit limit among the given instructions. */
  function FirstLimit(view: TransactionView, budgetId: nat, ixs: seq<Instruction>): Option<nat> {
    if ixs == [] then None
    else if IsBudget(view, budgetId, ixs[0]) && |ixs[0].data| == 5 && ixs[0].data[0] == SET_CU_LIMIT then
      Some(LittleEndian(ixs[0].data[1..5]))
    else FirstLimit(view, budgetId, ixs[1..])
  }

  /** The first compute unit price among the given instructions. */
  function FirstPrice(view: TransactionView, budgetId: nat, ixs: seq<Instruction>): Option<nat> {
    if ixs == [] then None
    else if IsBudget(view, budgetId, ixs[0]) && |ixs[0].data| == 9 && ixs[0].data[0] == SET_CU_PRICE then
      Some(LittleEndian(ixs[0].data[1..9]))
    else FirstPrice(view, budgetId, ixs[1..])
  }

  function Checked(view: TransactionView): seq<Instruction> {
    if |view.instructions| <= MAX_CHECKED then view.instructions else view.instructions[..MAX_CHECKED]
  }

  function Cus(view: TransactionView, budgetId: nat): nat {
    var l := FirstLimit(view, budgetId, Checked(view));
    if l.Some? then l.value else DEFAULT_CUS
  }

  function Price(view: TransactionView, budgetId: nat): nat {
    var p := FirstPrice(view, budgetId, Checked(view));
    if p.Some? then p.value else 0
  }

  /** The fee without any width limit. */
  function ExactFee(signatures: nat, cus: nat, price: nat): nat {
    5000 * signatures + cus * price / 1_000_000
  }

  /** The fee as computed: the priority part is capped, the sum wraps. */
  function WrappedFee(signatures: nat, cus: nat, price: nat): nat {
    var priority := cus * price / 1_000_000;
    (5000 * signatures % U64 + (if priority < U64 then priority else U64 - 1)) % U64
  }

  lemma {:induction false} FirstAppend(view: TransactionView, budgetId: nat, a: seq<Instruction>, ix: Instruction)
    ensures FirstLimit(view, budgetId, a + [ix])
            == if FirstLimit(view, budgetId, a).Some? then FirstLimit(view, budgetId, a)
               else FirstLimit(view, budgetId, [ix])
    ensures FirstPrice(view, budgetId, a + [ix])
            == if FirstPrice(view, budgetId, a).Some? then FirstPrice(view, budgetId, a)
               else FirstPrice(view, budgetId, [ix])
  {
    if a == [] {
      assert a + [ix] == [ix];
    } else {
      FirstAppend(view, budgetId, a[1..], ix);
      assert (a + [ix])[1..] == a[1..] + [ix];
    }
  }

  method TotalFee(view: TransactionView, budgetId: nat) returns (fee: TransactionFee)
    ensures fee.requestedCus == Cus(view, budgetId) && fee.cuPrice == Price(view, budgetId)
    ensures fee.totalFee == WrappedFee(|view.signatures|, fee.requestedCus, fee.cuPrice)
  {
    var requestedCus: Option<nat> := None;
    var cuPrice: Option<nat> := None;
    var duplicate := false;
    var ixs := Checked(view);
    for i := 0 to |ixs|
      invariant requestedCus == FirstLimit(view, budgetId, ixs[..i])
      invariant cuPrice == FirstPrice(view, budgetId, ixs[..i])
    {
      var ix := ixs[i];
      FirstAppend(view, budgetId, ixs[..i], ix);
      assert ixs[..i + 1] == ixs[..i] + [ix];
      if IsBudget(view, budgetId, ix) {
        if |ix.data| == 5 && ix.data[0] == SET_CU_LIMIT {
          if requestedCus.Some? {
            duplicate := true;
          } else {
            requestedCus := Some(LittleEndian(ix.data[1..5]));
          }
        } else if |ix.data| == 9 && ix.data[0] == SET_CU_PRICE {
          if cuPrice.Some? {
            duplicate := true;
          } else {
            cuPrice := Some(LittleEndian(ix.data[1..9]));
          }
        }
      }
    }
    assert ixs[..|ixs|] == ixs;
    var cus := if requestedCus.Some? then requestedCus.value else DEFAULT_CUS;
    var price := if cuPrice.Some? then cuPrice.value else 0;
    var signatureCost := 5000 * |view.signatures| % U64;
    var priority := cus * price / 1_000_000;
    var capped := if priority < U64 then priority else U64 - 1;
    fee := TransactionFee(price, (signatureCost + capped) % U64, cus);
  }

  // ------------------------------------------------------------ what it reads

  /** The place values of four and of eight little-endian bytes. */
  lemma FourBytes(b: seq<Byte>)
    requires |b| == 4
    ensures LittleEndian(b) == b[0] + 0x100 * (b[1] as int) + 0x1_0000 * (b[2] as int) + 0x100_0000 * (b[3] as int)
  {
    TwoBytes(b, LittleEndian(b[2..]));
    TwoBytes(b[2..], 0);
    assert b[2..][2..] == [];
  }

  lemma TwoBytes(b: seq<Byte>, rest: nat)
    requires |b| >= 2 && rest == LittleEndian(b[2..])
    ensures LittleEndian(b) == b[0] + 0x100 * (b[1] as int) + 0x1_0000 * rest
  {
    assert b[1..][1..] == b[2..];
  }

  lemma EightBytes(b: seq<Byte>)
    requires |b| == 8
    ensures LittleEndian(b)
            == b[0] + 0x100 * (b[1] as int) + 0x1_0000 * (b[2] as int) + 0x100_0000 * (b[3] as int)
               + 0x1_0000_0000 * (b[4] as int) + 0x100_0000_0000 * (b[5] as int)
               + 0x1_0000_0000_0000 * (b[6] as int) + 0x100_0000_0000_0000 * (b[7] as int)
  {
    TwoBytes(b, LittleEndian(b[2..]));
    TwoBytes(b[2..], LittleEndian(b[4..]));
    assert b[2..][2..] == b[4..];
    FourBytes(b[4..]);
  }

  /** A compute budget instruction of nine bytes that starts with 3. */
  ghost predicate SetsPrice(view: TransactionView, budgetId: nat, ix: Instruction) {
    && ix.programIdIndex < |view.staticAccountKeys| && view.staticAccountKeys[ix.programIdIndex] == budgetId
    && |ix.data| == 9 && ix.data[0] == 3
  }

  /** A compute budget instruction of five bytes that starts with 2. */
  ghost predicate SetsLimit(view: TransactionView, budgetId: nat, ix: Instruction) {
    && ix.programIdIndex < |view.staticAccountKeys| && view.staticAccountKeys[ix.programIdIndex] == budgetId
    && |ix.data| == 5 && ix.data[0] == 2
  }

  lemma {:induction false} FirstPriceAt(view: TransactionView, budgetId: nat, ixs: seq<Instruction>, i: nat)
    requires i <= |ixs| && forall j :: 0 <= j < i ==> !SetsPrice(view, budgetId, ixs[j])
    requires i < |ixs| ==> SetsPrice(view, budgetId, ixs[i])
    ensures FirstPrice(view, budgetId, ixs) == if i < |ixs| then Some(LittleEndian(ixs[i].data[1..9])) else None
  {
    if i > 0 {
      assert !SetsPrice(view, budgetId, ixs[0]);
      assert forall j :: 0 <= j < i - 1 ==> ixs[1..][j] == ixs[j + 1];
      FirstPriceAt(view, budgetId, ixs[1..], i - 1);
    }
  }

  lemma {:induction false} FirstLimitAt(view: TransactionView, budgetId: nat, ixs: seq<Instruction>, i: nat)
    requires i <= |ixs| && forall j :: 0 <= j < i ==> !SetsLimit(view, budgetId, ixs[j])
    requires i < |ixs| ==> SetsLimit(view, budgetId, ixs[i])
    ensures FirstLimit(view, budgetId, ixs) == if i < |ixs| then Some(LittleEndian(ixs[i].data[1..5])) else None
  {
    if i > 0 {
      assert !SetsLimit(view, budgetId, ixs[0]);
      assert forall j :: 0 <= j < i - 1 ==> ixs[1..][j] == ixs[j + 1];
      FirstLimitAt(view, budgetId, ixs[1..], i - 1);
    }
  }

  /** The price is the little-endian number after the first byte of the first price instruction among the first eight. */
  lemma PriceRead(view: TransactionView, budgetId: nat, i: nat)
    requires i < 8 && i < |view.instructions| && SetsPrice(view, budgetId, view.instructions[i])
    requires forall j :: 0 <= j < i ==> !SetsPrice(view, budgetId, view.instructions[j])
    ensures var d := view.instructions[i].data;
            Price(view, budgetId)
            == d[1] + 0x100 * (d[2] as int) + 0x1_0000 * (d[3] as int) + 0x100_0000 * (d[4] as int)
               + 0x1_0000_0000 * (d[5] as int) + 0x100_0000_0000 * (d[6] as int)
               + 0x1_0000_0000_0000 * (d[7] as int) + 0x100_0000_0000_0000 * (d[8] as int)
  {
    FirstPriceAt(view, budgetId, Checked(view), i);
    EightBytes(view.instructions[i].data[1..9]);
  }

  /** The limit is the little-endian number after the first byte of the first limit instruction among the first eight. */
  lemma LimitRead(view: TransactionView, budgetId: nat, i: nat)
    requires i < 8 && i < |view.instructions| && SetsLimit(view, budgetId, view.instructions[i])
    requires forall j :: 0 <= j < i ==> !SetsLimit(view, budgetId, view.instructions[j])
    ensures var d := view.instructions[i].data;
            Cus(view, budgetId) == d[1] + 0x100 * (d[2] as int) + 0x1_0000 * (d[3] as int) + 0x100_0000 * (d[4] as int)
  {
    FirstLimitAt(view, budgetId, Checked(view), i);
    FourBytes(view.instructions[i].data[1..5]);
  }

  /** Without a price among the first eight instructions it is zero, without a limit 200000. */
  lemma Defaults(view: TransactionView, budgetId: nat)
    ensures (forall j :: 0 <= j < 8 && j < |view.instructions| ==> !SetsPrice(view, budgetId, view.instructions[j]))
            ==> Price(view, budgetId) == 0
    ensures (forall j :: 0 <= j < 8 && j < |view.instructions| ==> !SetsLimit(view, budgetId, view.instructions[j]))
            ==> Cus(view, budgetId) == 200_000
  {
    var ixs := Checked(view);
    if forall j :: 0 <= j < 8 && j < |view.instructions| ==> !SetsPrice(view, budgetId, view.instructions[j]) {
      FirstPriceAt(view, budgetId, ixs, |ixs|);
    }
    if forall j :: 0 <= j < 8 && j < |view.instructions| ==> !SetsLimit(view, budgetId, view.instructions[j]) {
      FirstLimitAt(view, budgetId, ixs, |ixs|);
    }
  }

  // --------------------------------------------------------- what it ignores

  /** Instructions after the first eight do not matter. */
  lemma IgnoresLater(view: TransactionView, budgetId: nat, more: seq<Instruction>)
    requires |view.instructions| >= MAX_CHECKED
    ensures var longer := view.(instructions := view.instructions + more);
            Cus(longer, budgetId) == Cus(view, budgetId) && Price(longer, budgetId) == Price(view, budgetId)
  {
    var longer := view.(instructions := view.instructions + more);
    assert Checked(longer) == Checked(view);
    KeysDecide(view, longer, budgetId, Checked(view));
  }

  lemma {:induction false} KeysDecide(v: TransactionView, w: TransactionView, budgetId: nat, ixs: seq<Instruction>)
    requires v.staticAccountKeys == w.staticAccountKeys
    ensures FirstLimit(v, budgetId, ixs) == FirstLimit(w, budgetId, ixs)
    ensures FirstPrice(v, budgetId, ixs) == FirstPrice(w, budgetId, ixs)
  {
    if ixs != [] {
      KeysDecide(v, w, budgetId, ixs[1..]);
    }
  }

  ghost function BudgetOnly(view: TransactionView, budgetId: nat, ixs: seq<Instruction>): seq<Instruction> {
    if ixs == [] then []
    else if IsBudget(view, budgetId, ixs[0]) then [ixs[0]] + BudgetOnly(view, budgetId, ixs[1..])
    else BudgetOnly(view, budgetId, ixs[1..])
  }

  /** Instructions of other programs do not matter. */
  lemma {:induction false} IgnoresOtherPrograms(view: TransactionView, budgetId: nat, ixs: seq<Instruction>)
    ensures FirstLimit(view, budgetId, ixs) == FirstLimit(view, budgetId, BudgetOnly(view, budgetId, ixs))
    ensures FirstPrice(view, budgetId, ixs) == FirstPrice(view, budgetId, BudgetOnly(view, budgetId, ixs))
  {
    if ixs != [] {
      IgnoresOtherPrograms(view, budgetId, ixs[1..]);
      var rest := BudgetOnly(view, budgetId, ixs[1..]);
      assert ([ixs[0]] + rest)[1..] == rest;
    }
  }

  // ------------------------------------------------------------------ widths

  lemma {:induction false} FirstBounds(view: TransactionView, budgetId: nat, ixs: seq<Instruction>)
    ensures FirstLimit(view, budgetId, ixs).Some? ==> FirstLimit(view, budgetId, ixs).value < U32
    ensures FirstPrice(view, budgetId, ixs).Some? ==> FirstPrice(view, budgetId, ixs).value < U64
  {
    if ixs != [] {
      FirstBounds(view, budgetId, ixs[1..]);
      if |ixs[0].data| == 5 {
        LittleEndianBound(ixs[0].data[1..5]);
        Powers();
      }
      if |ixs[0].data| == 9 {
        LittleEndianBound(ixs[0].data[1..9]);
        Powers();
      }
    }
  }

  lemma Powers()
    ensures Pow256(4) == U32 && Pow256(8) == U64
  {
    assert Pow256(2) == 0x1_0000;
    assert Pow256(4) == 0x1_0000_0000;
    assert Pow256(6) == 0x1_0000_0000_0000;
  }

  /** The product of limit and price stays below 2^96, so the 128-bit arithmetic cannot overflow. */
  lemma ProductFits(view: TransactionView, budgetId: nat)
    ensures Cus(view, budgetId) * Price(view, budgetId) < U96
  {
    FirstBounds(view, budgetId, Checked(view));
    ProductBelow(Cus(view, budgetId), Price(view, budgetId), U32, U64);
  }

  lemma ProductBelow(c: nat, p: nat, m: nat, n: nat)
    requires c < m && p < n
    ensures c * p < m * n
  {
    assert c * p <= c * n < m * n;
  }

  /** The computed fee is the exact one if and only if the exact one fits into 64 bits. */
  lemma ExactIffFits(signatures: nat, cus: nat, price: nat)
    ensures WrappedFee(signatures, cus, price) == ExactFee(signatures, cus, price)
            <==> ExactFee(signatures, cus, price) < U64
  {
  }

  /** With one signature, the largest price and limit wrap around to less than the signature cost. */
  lemma WrapsAround()
    ensures WrappedFee(1, U32 - 1, U64 - 1) == 4999
  {
  }

  /** Where it fits, the fee grows with the price and with the limit. */
  lemma MonotoneFee(signatures: nat, cus: nat, price: nat, cus': nat, price': nat)
    requires cus <= cus' && price <= price' && ExactFee(signatures, cus', price') < U64
    ensures WrappedFee(signatures, cus, price) <= WrappedFee(signatures, cus', price')
  {
    assert cus * price <= cus' * price <= cus' * price';
    assert cus * price / 1_000_000 <= cus' * price' / 1_000_000;
    ExactIffFits(signatures, cus, price);
    ExactIffFits(signatures, cus', price');
  }
}
