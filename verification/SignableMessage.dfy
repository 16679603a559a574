/**
 The message that `personal_sign` signs (version byte 0x45 of EIP-191, "Specification"): a fixed
 header, the decimal length of the payload, and the payload. The claims pallet and the EVM accounts
 pallet build it with the same code and different payload prefixes.
 */
module SignableMessage {
  import opened Primitives

  /** `EthereumTxHash`: 32 raw bytes. */
  type TxHash = b: seq<byte> | |b| == 32 witness seq(32, _ => 0)

  /** `EcdsaSignature`: raw signature bytes. */
  type Signature = seq<byte>

  function Ascii(s: string): seq<byte>
    requires forall i :: 0 <= i < |s| ==> s[i] < 128 as char
  {
    seq(|s|, i requires 0 <= i < |s| => s[i] as byte)
  }

  const HEADER: seq<byte> := [0x19] + Ascii("Ethereum Signed Message:\n")

  /** The claims prefix of the runtime (runtime/src/lib.rs). */
  const CLAIMS_PREFIX: seq<byte> := Ascii("Pay CLVs to the Clover account:")

  /** The prefix of account-binding messages (modules/evm-accounts/src/lib.rs). */
  const BINDING_PREFIX: seq<byte> := Ascii("clover evm:")

  // ---------- Hexadecimal ----------

  function Nibble(n: byte): byte
    requires n < 16
  {
    if n < 10 then 48 + n else 97 - 10 + n
  }

  function Hex(data: seq<byte>): (r: seq<byte>)
    ensures |r| == 2 * |data|
  {
    if data == [] then []
    else [Nibble(data[0] / 16), Nibble(data[0] % 16)] + Hex(data[1..])
  }

  function FromNibble(c: byte): byte {
    if 48 <= c <= 57 then c - 48 else if 97 <= c <= 102 then c - 97 + 10 else 0
  }

  function FromHex(h: seq<byte>): seq<byte> {
    if |h| < 2 then []
    else
      var v := FromNibble(h[0]) as int * 16 + FromNibble(h[1]) as int;
      [(v % 256) as byte] + FromHex(h[2..])
  }

  lemma NibbleRoundTrip(n: byte)
    requires n < 16
    ensures FromNibble(Nibble(n)) == n
  {
  }

  lemma ByteRoundTrip(b: byte)
    ensures FromNibble(Nibble(b / 16)) as int * 16 + FromNibble(Nibble(b % 16)) as int == b as int
  {
    NibbleRoundTrip(b / 16);
    NibbleRoundTrip(b % 16);
  }

  /** Hex encoding loses nothing. */
  lemma {:induction false} HexRoundTrip(data: seq<byte>)
    ensures FromHex(Hex(data)) == data
    decreases |data|
  {
    if data != [] {
      HexRoundTrip(data[1..]);
      ByteRoundTrip(data[0]);
      var h := Hex(data);
      assert h[0] == Nibble(data[0] / 16) && h[1] == Nibble(data[0] % 16) && h[2..] == Hex(data[1..]);
      assert FromHex(h) == [data[0]] + FromHex(Hex(data[1..]));
    }
  }

  method ToAsciiHex(data: seq<byte>) returns (r: seq<byte>)
    ensures r == Hex(data)
  {
    r := [];
    for i := 0 to |data|
      invariant r + Hex(data[i..]) == Hex(data)
    {
      var high, low := Nibble(data[i] / 16), Nibble(data[i] % 16);
      assert Hex(data[i..]) == [high, low] + Hex(data[i + 1..]) by {
        assert data[i..][1..] == data[i + 1..];
      }
      assert r + ([high, low] + Hex(data[i + 1..])) == r + [high] + [low] + Hex(data[i + 1..]);
      r := r + [high];
      r := r + [low];
    }
  }

  // ---------- Decimal ----------

  function Decimal(l: nat): seq<byte> {
    if l == 0 then [] else Decimal(l / 10) + [48 + (l % 10) as byte]
  }

  function ParseDecimal(d: seq<byte>): int {
    if d == [] then 0 else ParseDecimal(d[..|d| - 1]) * 10 + (d[|d| - 1] as int - 48)
  }

  /** The digit loop prints the decimal numeral: only digits, no leading zero, and it reads back. */
  lemma {:induction false} DecimalIsNumeral(l: nat)
    ensures ParseDecimal(Decimal(l)) == l
    ensures forall i :: 0 <= i < |Decimal(l)| ==> 48 <= Decimal(l)[i] <= 57
    ensures l > 0 ==> |Decimal(l)| > 0 && Decimal(l)[0] != 48
    decreases l
  {
    if l > 0 {
      DecimalIsNumeral(l / 10);
      var d := Decimal(l);
      assert d[..|d| - 1] == Decimal(l / 10);
    }
  }

  lemma {:induction false} LongerNumeral(l: nat, m: nat)
    requires l <= m
    ensures |Decimal(l)| <= |Decimal(m)|
    decreases m
  {
    if l > 0 {
      LongerNumeral(l / 10, m / 10);
    }
  }

  // ---------- The message ----------

  function Frame(payload: seq<byte>): seq<byte> {
    HEADER + Decimal(|payload|) + payload
  }

  function Reversed(s: seq<byte>): seq<byte> {
    if s == [] then [] else [s[|s| - 1]] + Reversed(s[..|s| - 1])
  }

  lemma Assemble(front: seq<byte>, x: seq<byte>, y: seq<byte>, z: seq<byte>)
    ensures front + x + y + z == front + (x + y + z)
  {
  }

  /** One turn of the digit loop moves the last digit of the numeral to the reversed digits. */
  lemma DigitStep(l: nat, rev: seq<byte>)
    requires l > 0
    ensures Decimal(l) + Reversed(rev) == Decimal(l / 10) + Reversed(rev + [48 + (l % 10) as byte])
  {
    var next := rev + [48 + (l % 10) as byte];
    assert next[..|next| - 1] == rev;
  }

  method EthereumSignableMessage(prefix: seq<byte>, what: seq<byte>, extra: seq<byte>) returns (v: seq<byte>)
    ensures v == Frame(prefix + what + extra)
  {
    var l: nat := |prefix| + |what| + |extra|;
    var rev: seq<byte> := [];
    while l > 0
      invariant Decimal(l) + Reversed(rev) == Decimal(|prefix + what + extra|)
    {
      var digit := 48 + (l % 10) as byte;
      DigitStep(l, rev);
      rev := rev + [digit];
      l := l / 10;
    }
    assert Reversed(rev) == Decimal(|prefix + what + extra|);
    v := HEADER;
    v := v + Reversed(rev);
    v := v + prefix;
    v := v + what;
    v := v + extra;
    Assemble(HEADER + Reversed(rev), prefix, what, extra);
  }

  /** The framed message determines its payload, whatever bytes the payload starts with. */
  lemma FrameInjective(p: seq<byte>, q: seq<byte>)
    requires Frame(p) == Frame(q)
    ensures p == q
  {
    if |p| < |q| {
      LongerNumeral(|p|, |q|);
    } else if |q| < |p| {
      LongerNumeral(|q|, |p|);
    }
    assert |Frame(p)| == |HEADER| + |Decimal(|p|)| + |p|;
    assert |Frame(q)| == |HEADER| + |Decimal(|q|)| + |q|;
    assert p == Frame(p)[|Frame(p)| - |p|..];
    assert q == Frame(q)[|Frame(q)| - |q|..];
  }

  /** Two payload prefixes can lead to a common message iff one extends the other. */
  lemma PrefixesCollideIff(p: seq<byte>, q: seq<byte>)
    ensures (exists x: seq<byte>, y: seq<byte> :: Frame(p + x) == Frame(q + y)) <==> p <= q || q <= p
  {
    if x: seq<byte>, y: seq<byte> :| Frame(p + x) == Frame(q + y) {
      FrameInjective(p + x, q + y);
      if |p| <= |q| {
        assert p == (p + x)[..|p|] == (q + y)[..|p|] == q[..|p|];
      } else {
        assert q == (q + y)[..|q|] == (p + x)[..|q|] == p[..|q|];
      }
    }
    if p <= q {
      assert p + q[|p|..] == q + [];
      assert Frame(p + q[|p|..]) == Frame(q + []);
    } else if q <= p {
      assert q + p[|q|..] == p + [];
      assert Frame(p + []) == Frame(q + p[|q|..]);
    }
  }

  /** What a claim for `account` of transaction `tx` signs. */
  function ClaimMessage(prefix: seq<byte>, account: AccountId, tx: TxHash): seq<byte> {
    Frame(prefix + Hex(account) + Hex(tx))
  }

  /** What binding an EVM address to `account` signs. */
  function BindingMessage(account: AccountId): seq<byte> {
    Frame(BINDING_PREFIX + Hex(account) + [])
  }

  /** The prefixes, byte by byte. */
  lemma PrefixBytes()
    ensures CLAIMS_PREFIX == [80, 97, 121, 32, 67, 76, 86, 115, 32, 116, 111, 32, 116, 104, 101, 32, 67, 108, 111, 118,
                              101, 114, 32, 97, 99, 99, 111, 117, 110, 116, 58]
    ensures BINDING_PREFIX == [99, 108, 111, 118, 101, 114, 32, 101, 118, 109, 58]
  {
  }

  /**
   The bytes of a signed message: 0x19, the text "Ethereum Signed Message:" and a line feed, then the decimal numeral of
   the payload's length, without leading zero, then the payload.
   */
  ghost predicate IsSigned(m: seq<byte>, payload: seq<byte>) {
    var n := |m| - |payload|;
    && 26 < n && m[n..] == payload
    && m[..26] == [25, 69, 116, 104, 101, 114, 101, 117, 109, 32, 83, 105, 103, 110, 101, 100, 32, 77, 101, 115, 115,
                   97, 103, 101, 58, 10]
    && m[26] != 48
    && (forall i :: 26 <= i < n ==> 48 <= m[i] <= 57)
    && ParseDecimal(m[26..n]) == |payload|
  }

  lemma HeaderBytes()
    ensures HEADER == [25, 69, 116, 104, 101, 114, 101, 117, 109, 32, 83, 105, 103, 110, 101, 100, 32, 77, 101, 115,
                       115, 97, 103, 101, 58, 10]
  {
  }

  /** The parts of a suffix that is a concatenation. */
  lemma Parts(m: seq<byte>, k: nat, x: seq<byte>, y: seq<byte>, z: seq<byte>)
    requires k <= |m| && m[k..] == x + y + z
    ensures |m| == k + |x| + |y| + |z|
    ensures m[k..k + |x|] == x && m[k + |x|..k + |x| + |y|] == y && m[k + |x| + |y|..] == z
  {
    assert m[k..][..|x|] == x && m[k..][|x|..|x| + |y|] == y && m[k..][|x| + |y|..] == z;
  }

  lemma FrameLayout(payload: seq<byte>)
    requires payload != []
    ensures IsSigned(Frame(payload), payload)
  {
    var m, d := Frame(payload), Decimal(|payload|);
    assert m[0..] == m;
    Parts(m, 0, HEADER, d, payload);
    HeaderBytes();
    NumeralAt(m, 26, 26 + |d|, |payload|);
  }

  lemma NumeralAt(m: seq<byte>, lo: nat, hi: nat, l: nat)
    requires l > 0 && lo <= hi <= |m| && m[lo..hi] == Decimal(l)
    ensures lo < hi && m[lo] != 48 && ParseDecimal(m[lo..hi]) == l
    ensures forall i :: lo <= i < hi ==> 48 <= m[i] <= 57
  {
    DecimalIsNumeral(l);
    assert m[lo] == m[lo..hi][0];
    forall i | lo <= i < hi ensures 48 <= m[i] <= 57 {
      assert m[i] == m[lo..hi][i - lo];
    }
  }

  lemma ThreePartLayout(prefix: seq<byte>, x: seq<byte>, y: seq<byte>)
    requires |x| == |y| == 64
    ensures var m := Frame(prefix + x + y);
            var n := |m|;
            && n >= |prefix| + 128
            && IsSigned(m, m[n - 128 - |prefix|..])
            && m[n - 128 - |prefix|..n - 128] == prefix && m[n - 128..n - 64] == x && m[n - 64..] == y
  {
    var payload := prefix + x + y;
    var m := Frame(payload);
    FrameLayout(payload);
    Parts(m, |m| - |payload|, prefix, x, y);
  }

  /** What a wallet signs for a claim: the prefix, then the account in hex, then the transaction in hex. */
  lemma ClaimMessageLayout(prefix: seq<byte>, account: AccountId, tx: TxHash)
    ensures var m := ClaimMessage(prefix, account, tx);
            var n := |m|;
            && n >= |prefix| + 128
            && IsSigned(m, m[n - 128 - |prefix|..])
            && m[n - 128 - |prefix|..n - 128] == prefix
            && FromHex(m[n - 128..n - 64]) == account
            && FromHex(m[n - 64..]) == tx
  {
    ThreePartLayout(prefix, Hex(account), Hex(tx));
    HexRoundTrip(account);
    HexRoundTrip(tx);
  }

  /** What a wallet signs to bind an address: the prefix "clover evm:", then the account in hex. */
  lemma BindingMessageLayout(account: AccountId)
    ensures var m := BindingMessage(account);
            var n := |m|;
            && n >= 75
            && IsSigned(m, m[n - 75..])
            && m[n - 75..n - 64] == [99, 108, 111, 118, 101, 114, 32, 101, 118, 109, 58]
            && FromHex(m[n - 64..]) == account
  {
    var payload := BINDING_PREFIX + Hex(account) + [];
    var m := BindingMessage(account);
    PrefixBytes();
    FrameLayout(payload);
    Parts(m, |m| - |payload|, BINDING_PREFIX, Hex(account), []);
    assert m[|m| - 64..] == m[|m| - 64..|m|];
    HexRoundTrip(account);
  }

  /** A claim message determines the account and the transaction. */
  lemma ClaimMessageInjective(prefix: seq<byte>, a: AccountId, t: TxHash, b: AccountId, u: TxHash)
    requires ClaimMessage(prefix, a, t) == ClaimMessage(prefix, b, u)
    ensures a == b && t == u
  {
    var p, q := prefix + Hex(a) + Hex(t), prefix + Hex(b) + Hex(u);
    FrameInjective(p, q);
    var n := |prefix|;
    assert Hex(a) == p[n..n + 64] && Hex(t) == p[n + 64..];
    assert Hex(b) == q[n..n + 64] && Hex(u) == q[n + 64..];
    HexRoundTrip(a);
    HexRoundTrip(b);
    HexRoundTrip(t);
    HexRoundTrip(u);
  }

  /** A binding message determines the account. */
  lemma BindingMessageInjective(a: AccountId, b: AccountId)
    requires BindingMessage(a) == BindingMessage(b)
    ensures a == b
  {
    var p, q := BINDING_PREFIX + Hex(a) + [], BINDING_PREFIX + Hex(b) + [];
    FrameInjective(p, q);
    var n := |BINDING_PREFIX|;
    assert Hex(a) == p[n..] && Hex(b) == q[n..];
    HexRoundTrip(a);
    HexRoundTrip(b);
  }

  /** No claim message is an account-binding message. */
  lemma ClaimIsNotBinding(a: AccountId, t: TxHash, b: AccountId)
    ensures ClaimMessage(CLAIMS_PREFIX, a, t) != BindingMessage(b)
  {
    assert CLAIMS_PREFIX[0] == 80 && BINDING_PREFIX[0] == 99;
    PrefixesCollideIff(CLAIMS_PREFIX, BINDING_PREFIX);
    assert CLAIMS_PREFIX + Hex(a) + Hex(t) == CLAIMS_PREFIX + (Hex(a) + Hex(t));
    assert BINDING_PREFIX + Hex(b) + [] == BINDING_PREFIX + (Hex(b) + []);
  }
}
