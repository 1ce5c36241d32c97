/** HKDF (section 2 of RFC 5869) and PBKDF2 (section 5.2 of RFC 8018) over an HMAC of fixed output
    length. */
module KeyDerivation {
  import opened Wrappers
  import Der
  import Base64

  type Byte = Der.Byte
  type Bytes = Der.Bytes

  type Hmac = (Bytes, Bytes) -> Bytes

  const MAX_OUTPUT: nat := Base64.MAX_OUTPUT
  const MAX_ITERATIONS: nat := 1_000_000

  ghost predicate HasSize(hmac: Hmac, size: nat) {
    size > 0 && forall key: Bytes, message: Bytes :: |hmac(key, message)| == size
  }

  // ----- HKDF -----

  /** T(i): T(0) is empty. */
  function Expanded(hmac: Hmac, prk: Bytes, info: Bytes, i: nat): (t: Bytes)
    requires i <= 255
  {
    if i == 0 then [] else hmac(prk, Expanded(hmac, prk, info, i - 1) + info + [i])
  }

  /** T(1) | T(2) | ... | T(n) */
  function Expansion(hmac: Hmac, prk: Bytes, info: Bytes, n: nat): (t: Bytes)
    requires n <= 255
  {
    if n == 0 then [] else Expansion(hmac, prk, info, n - 1) + Expanded(hmac, prk, info, n)
  }

  function Extracted(hmac: Hmac, size: nat, salt: Option<Bytes>, ikm: Bytes): (prk: Bytes) {
    hmac(if salt.Some? then salt.value else Der.Zeros(size), ikm)
  }

  lemma {:induction false} ExpansionLength(hmac: Hmac, size: nat, prk: Bytes, info: Bytes, n: nat)
    requires HasSize(hmac, size) && n <= 255
    ensures |Expansion(hmac, prk, info, n)| == n * size
  {
    if n > 0 {
      ExpansionLength(hmac, size, prk, info, n - 1);
      assert n * size == (n - 1) * size + size;
    }
  }

  lemma {:induction false} ExpansionGrows(hmac: Hmac, size: nat, prk: Bytes, info: Bytes, m: nat, n: nat)
    requires HasSize(hmac, size) && m <= n <= 255
    ensures Expansion(hmac, prk, info, m) <= Expansion(hmac, prk, info, n)
  {
    if m < n {
      ExpansionGrows(hmac, size, prk, info, m, n - 1);
    }
  }

  /** The first length octets of T(1) | T(2) | ..., as long as one octet can count the blocks. */
  function Hkdf(hmac: Hmac, size: nat, ikm: Bytes, length: nat, salt: Option<Bytes>, info: Bytes): (r: Option<Bytes>)
    requires HasSize(hmac, size)
  {
    if length > MAX_OUTPUT || length > 255 * size then None
    else
      ExpansionLength(hmac, size, Extracted(hmac, size, salt, ikm), info, 255);
      Some(Expansion(hmac, Extracted(hmac, size, salt, ikm), info, 255)[..length])
  }

  lemma Covers(blocks: nat, size: nat, length: nat, limit: nat)
    requires blocks * size < length <= limit * size
    ensures blocks < limit
  {
    AtLeast(blocks, limit, size);
  }

  lemma AtLeast(a: nat, b: nat, m: nat)
    ensures a >= b ==> a * m >= b * m
  {
  }

  /** The counter is one octet that wraps around; it never does so before it is used. */
  method DeriveHkdf(hmac: Hmac, size: nat, ikm: Bytes, length: nat, salt: Option<Bytes>, info: Bytes)
    returns (r: Option<Bytes>)
    requires HasSize(hmac, size)
    ensures r == Hkdf(hmac, size, ikm, length, salt, info)
  {
    if length > MAX_OUTPUT || length > 255 * size {
      return None;
    }
    var prk := hmac(if salt.Some? then salt.value else Der.Zeros(size), ikm);
    var result := Expand(hmac, size, prk, length, info);
    return Some(result);
  }

  method Expand(hmac: Hmac, size: nat, prk: Bytes, length: nat, info: Bytes) returns (result: Bytes)
    requires HasSize(hmac, size) && length <= 255 * size
    ensures |Expansion(hmac, prk, info, 255)| == 255 * size && result == Expansion(hmac, prk, info, 255)[..length]
  {
    hide Expansion, Expanded;
    result := [];
    var previous: Bytes := [];
    var counter: nat := 1;
    ghost var blocks: nat := 0;
    NoExpansion(hmac, prk, info);
    while |result| < length
      invariant blocks <= 255 && counter == (blocks + 1) % 256
      invariant previous == Expanded(hmac, prk, info, blocks)
      invariant |Expansion(hmac, prk, info, blocks)| == blocks * size
      invariant |result| <= length && result == Prefix(Expansion(hmac, prk, info, blocks), length)
      invariant |result| < length ==> |result| == blocks * size
      decreases length - |result|
    {
      Covers(blocks, size, length, 255);
      OneMoreBlock(hmac, size, prk, info, blocks);
      var message := previous + info;
      message := message + [counter];
      counter := (counter + 1) % 256;
      previous := hmac(prk, message);
      blocks := blocks + 1;
      var take := if |previous| < length - |result| then |previous| else length - |result|;
      PrefixGrows(Expansion(hmac, prk, info, blocks - 1), previous, length);
      result := result + previous[..take];
    }
    WholeExpansion(hmac, size, prk, info, blocks, length);
  }

  function Prefix(s: Bytes, length: nat): (r: Bytes) {
    if |s| < length then s else s[..length]
  }

  lemma PrefixGrows(s: Bytes, block: Bytes, length: nat)
    requires |s| < length
    ensures var take := if |block| < length - |s| then |block| else length - |s|;
      Prefix(s + block, length) == s + block[..take]
  {
    assert block[..|block|] == block;
  }

  lemma NoExpansion(hmac: Hmac, prk: Bytes, info: Bytes)
    ensures Expansion(hmac, prk, info, 0) == [] && Expanded(hmac, prk, info, 0) == []
  {
  }

  lemma OneMoreBlock(hmac: Hmac, size: nat, prk: Bytes, info: Bytes, blocks: nat)
    requires HasSize(hmac, size) && blocks < 255
    ensures Expanded(hmac, prk, info, blocks + 1) == hmac(prk, Expanded(hmac, prk, info, blocks) + info + [blocks + 1])
    ensures Expansion(hmac, prk, info, blocks + 1) ==
      Expansion(hmac, prk, info, blocks) + Expanded(hmac, prk, info, blocks + 1)
    ensures |Expansion(hmac, prk, info, blocks)| == blocks * size
    ensures |Expansion(hmac, prk, info, blocks + 1)| == (blocks + 1) * size
    ensures |Expanded(hmac, prk, info, blocks + 1)| == size
  {
    ExpansionLength(hmac, size, prk, info, blocks);
    ExpansionLength(hmac, size, prk, info, blocks + 1);
  }

  lemma WholeExpansion(hmac: Hmac, size: nat, prk: Bytes, info: Bytes, blocks: nat, length: nat)
    requires HasSize(hmac, size) && blocks <= 255 && length <= 255 * size
    requires |Prefix(Expansion(hmac, prk, info, blocks), length)| == length
    ensures |Expansion(hmac, prk, info, 255)| == 255 * size
    ensures Prefix(Expansion(hmac, prk, info, blocks), length) == Expansion(hmac, prk, info, 255)[..length]
  {
    hide Expansion;
    ExpansionLength(hmac, size, prk, info, 255);
    ExpansionGrows(hmac, size, prk, info, blocks, 255);
  }

  /** A shorter output is the beginning of a longer one. */
  lemma HkdfIsPrefix(hmac: Hmac, size: nat, ikm: Bytes, length: nat, longer: nat, salt: Option<Bytes>, info: Bytes)
    requires HasSize(hmac, size) && length <= longer && Hkdf(hmac, size, ikm, longer, salt, info).Some?
    ensures var s, l := Hkdf(hmac, size, ikm, length, salt, info), Hkdf(hmac, size, ikm, longer, salt, info);
      s.Some? && |s.value| == length && |l.value| == longer && s.value <= l.value
  {
    ExpansionLength(hmac, size, Extracted(hmac, size, salt, ikm), info, 255);
  }

  /** Octets (i - 1) * size up to i * size. */
  function BlockOf(output: Bytes, size: nat, i: nat): (b: Bytes)
    requires i > 0 && i * size <= |output|
  {
    Before(i, size);
    output[(i - 1) * size..i * size]
  }

  lemma Before(i: nat, size: nat)
    requires i > 0
    ensures (i - 1) * size + size == i * size && 0 <= (i - 1) * size <= i * size
  {
  }

  lemma ExpansionBlock(hmac: Hmac, size: nat, prk: Bytes, info: Bytes, i: nat, n: nat)
    requires HasSize(hmac, size) && 0 < i <= n <= 255
    ensures i * size <= |Expansion(hmac, prk, info, n)|
    ensures BlockOf(Expansion(hmac, prk, info, n), size, i) == Expanded(hmac, prk, info, i)
  {
    hide Expanded;
    Before(i, size);
    AtLeast(n, i, size);
    ExpansionLength(hmac, size, prk, info, i - 1);
    ExpansionLength(hmac, size, prk, info, i);
    ExpansionLength(hmac, size, prk, info, n);
    ExpansionGrows(hmac, size, prk, info, i, n);
    var all, upTo := Expansion(hmac, prk, info, n), Expansion(hmac, prk, info, i);
    assert upTo == Expansion(hmac, prk, info, i - 1) + Expanded(hmac, prk, info, i);
    hide Expansion;
    assert upTo[(i - 1) * size..i * size] == Expanded(hmac, prk, info, i);
    assert all[..i * size] == upTo;
  }

  /** The blocks of an output, by themselves: each is the HMAC, under the extracted key, of the block before
      it, the info and the number of the block (section 2.3 of RFC 5869). */
  lemma HkdfBlocks(hmac: Hmac, size: nat, ikm: Bytes, length: nat, salt: Option<Bytes>, info: Bytes, i: nat)
    requires HasSize(hmac, size) && Hkdf(hmac, size, ikm, length, salt, info).Some? && i > 0 && i * size <= length
    ensures i < 256 && |Hkdf(hmac, size, ikm, length, salt, info).value| == length
    ensures var output := Hkdf(hmac, size, ikm, length, salt, info).value;
      var prk := hmac(if salt.Some? then salt.value else Der.Zeros(size), ikm);
      (i - 1) * size <= length &&
      BlockOf(output, size, i) ==
        hmac(prk, (if i == 1 then [] else BlockOf(output, size, i - 1)) + info + [i])
  {
    var prk := Extracted(hmac, size, salt, ikm);
    Before(i, size);
    if i > 255 {
      AtLeast(i, 256, size);
    }
    ExpansionLength(hmac, size, prk, info, 255);
    ExpansionBlock(hmac, size, prk, info, i, 255);
    if i > 1 {
      Before(i - 1, size);
      ExpansionBlock(hmac, size, prk, info, i - 1, 255);
    }
    hide Expansion;
    var all, output := Expansion(hmac, prk, info, 255), Hkdf(hmac, size, ikm, length, salt, info).value;
    assert output[(i - 1) * size..i * size] == all[(i - 1) * size..i * size];
    assert i > 1 ==> output[(i - 2) * size..(i - 1) * size] == all[(i - 2) * size..(i - 1) * size];
  }

  // ----- PBKDF2 -----

  function Xor(a: Byte, b: Byte): (c: Byte) {
    ((a as bv8) ^ (b as bv8)) as int
  }

  /** Octet by octet. */
  function XorBytes(a: Bytes, b: Bytes): (c: Bytes)
    requires |a| == |b|
    ensures |c| == |a| && forall i :: 0 <= i < |a| ==> c[i] == Xor(a[i], b[i])
  {
    seq(|a|, i requires 0 <= i < |a| => Xor(a[i], b[i]))
  }

  /** A block number as four octets, most significant first. */
  function BlockNumber(i: nat): (r: Bytes) {
    [i / 0x100_0000 % 256, i / 0x1_0000 % 256, i / 0x100 % 256, i % 256]
  }

  /** U_j of block i. */
  function Iterated(hmac: Hmac, password: Bytes, salt: Bytes, i: nat, j: nat): (u: Bytes)
    requires j > 0
  {
    if j == 1 then hmac(password, salt + BlockNumber(i)) else hmac(password, Iterated(hmac, password, salt, i, j - 1))
  }

  /** U_1 xor U_2 xor ... xor U_c */
  function Folded(hmac: Hmac, size: nat, password: Bytes, salt: Bytes, i: nat, c: nat): (f: Bytes)
    requires HasSize(hmac, size) && c > 0
    ensures |f| == size
  {
    if c == 1 then Iterated(hmac, password, salt, i, 1)
    else XorBytes(Folded(hmac, size, password, salt, i, c - 1), Iterated(hmac, password, salt, i, c))
  }

  /** F(1) | F(2) | ... | F(n) */
  function Blocks(hmac: Hmac, size: nat, password: Bytes, salt: Bytes, c: nat, n: nat): (t: Bytes)
    requires HasSize(hmac, size) && c > 0
  {
    if n == 0 then [] else Blocks(hmac, size, password, salt, c, n - 1) + Folded(hmac, size, password, salt, n, c)
  }

  lemma {:induction false} BlocksLength(hmac: Hmac, size: nat, password: Bytes, salt: Bytes, c: nat, n: nat)
    requires HasSize(hmac, size) && c > 0
    ensures |Blocks(hmac, size, password, salt, c, n)| == n * size >= n
  {
    hide Folded;
    if n > 0 {
      BlocksLength(hmac, size, password, salt, c, n - 1);
      assert n * size == (n - 1) * size + size;
    }
  }

  lemma {:induction false} BlocksGrow(hmac: Hmac, size: nat, password: Bytes, salt: Bytes, c: nat, m: nat, n: nat)
    requires HasSize(hmac, size) && c > 0 && m <= n
    ensures Blocks(hmac, size, password, salt, c, m) <= Blocks(hmac, size, password, salt, c, n)
    decreases n - m
  {
    hide Folded;
    if m < n {
      BlocksGrow(hmac, size, password, salt, c, m, n - 1);
    }
  }

  /** The first length octets of F(1) | F(2) | ...; length blocks are always enough. */
  function Pbkdf2(hmac: Hmac, size: nat, password: Bytes, salt: Bytes, iterations: nat, length: nat): (r: Option<Bytes>)
    requires HasSize(hmac, size)
  {
    if iterations == 0 || iterations > MAX_ITERATIONS || length > MAX_OUTPUT then None
    else
      BlocksLength(hmac, size, password, salt, iterations, length);
      Some(Blocks(hmac, size, password, salt, iterations, length)[..length])
  }

  method DerivePbkdf2(hmac: Hmac, size: nat, password: Bytes, salt: Bytes, iterations: nat, length: nat)
    returns (r: Option<Bytes>)
    requires HasSize(hmac, size)
    ensures r == Pbkdf2(hmac, size, password, salt, iterations, length)
  {
    if iterations == 0 || iterations > MAX_ITERATIONS || length > MAX_OUTPUT {
      return None;
    }
    var result := DeriveBlocks(hmac, size, password, salt, iterations, length);
    return Some(result);
  }

  method DeriveBlocks(hmac: Hmac, size: nat, password: Bytes, salt: Bytes, iterations: nat, length: nat)
    returns (result: Bytes)
    requires HasSize(hmac, size) && iterations > 0
    ensures length <= |Blocks(hmac, size, password, salt, iterations, length)|
    ensures result == Blocks(hmac, size, password, salt, iterations, length)[..length]
  {
    hide Blocks, Folded, Prefix, HasSize;
    result := [];
    var block: nat := 0;
    NoBlocks(hmac, size, password, salt, iterations);
    PrefixIs(Blocks(hmac, size, password, salt, iterations, 0), length);
    while |result| < length
      invariant |result| <= length && result == Prefix(Blocks(hmac, size, password, salt, iterations, block), length)
      decreases length - |result|
    {
      PrefixIs(Blocks(hmac, size, password, salt, iterations, block), length);
      NextBlock(hmac, size, password, salt, iterations, block);
      var accumulator := FoldBlock(hmac, size, password, salt, block + 1, iterations);
      var take := if |accumulator| < length - |result| then |accumulator| else length - |result|;
      PrefixGrows(Blocks(hmac, size, password, salt, iterations, block), accumulator, length);
      result := result + accumulator[..take];
      block := block + 1;
    }
    WholeBlocks(hmac, size, password, salt, iterations, block, length);
  }

  lemma PrefixIs(s: Bytes, length: nat)
    ensures |Prefix(s, length)| < length ==> |s| < length && Prefix(s, length) == s
    ensures s == [] ==> Prefix(s, length) == []
  {
  }

  lemma WholeBlocks(hmac: Hmac, size: nat, password: Bytes, salt: Bytes, c: nat, n: nat, length: nat)
    requires HasSize(hmac, size) && c > 0 && |Prefix(Blocks(hmac, size, password, salt, c, n), length)| == length
    ensures length <= |Blocks(hmac, size, password, salt, c, length)|
    ensures Prefix(Blocks(hmac, size, password, salt, c, n), length) ==
      Blocks(hmac, size, password, salt, c, length)[..length]
  {
    BlocksLength(hmac, size, password, salt, c, length);
    BlocksLength(hmac, size, password, salt, c, n);
    hide Blocks;
    if n <= length {
      BlocksGrow(hmac, size, password, salt, c, n, length);
    } else {
      BlocksGrow(hmac, size, password, salt, c, length, n);
    }
  }

  lemma NoBlocks(hmac: Hmac, size: nat, password: Bytes, salt: Bytes, c: nat)
    requires HasSize(hmac, size) && c > 0
    ensures Blocks(hmac, size, password, salt, c, 0) == []
  {
  }

  lemma NextBlock(hmac: Hmac, size: nat, password: Bytes, salt: Bytes, c: nat, n: nat)
    requires HasSize(hmac, size) && c > 0
    ensures Blocks(hmac, size, password, salt, c, n + 1) ==
      Blocks(hmac, size, password, salt, c, n) + Folded(hmac, size, password, salt, n + 1, c)
    ensures |Folded(hmac, size, password, salt, n + 1, c)| == size > 0
  {
  }

  /** One block: every iterate is folded into the accumulator. */
  method FoldBlock(hmac: Hmac, size: nat, password: Bytes, salt: Bytes, i: nat, iterations: nat)
    returns (accumulator: Bytes)
    requires HasSize(hmac, size) && iterations > 0
    ensures accumulator == Folded(hmac, size, password, salt, i, iterations)
  {
    hide XorBytes, BlockNumber;
    var first := salt + BlockNumber(i);
    var u := hmac(password, first);
    accumulator := u;
    for j := 1 to iterations
      invariant u == Iterated(hmac, password, salt, i, j) && |u| == size
      invariant accumulator == Folded(hmac, size, password, salt, i, j)
    {
      u := hmac(password, u);
      accumulator := XorInto(accumulator, u);
    }
  }

  method XorInto(a: Bytes, b: Bytes) returns (c: Bytes)
    requires |a| == |b|
    ensures c == XorBytes(a, b)
  {
    hide Xor;
    c := a;
    for j := 0 to |a|
      invariant |c| == |a| && (forall k :: 0 <= k < j ==> c[k] == Xor(a[k], b[k]))
      invariant forall k :: j <= k < |a| ==> c[k] == a[k]
    {
      c := c[j := Xor(c[j], b[j])];
    }
  }

  // ----- PBKDF2 as the standard puts it -----

  /** us is U_1, U_2, ... of block i: the first is made of the salt and the number of the block in four
      octets, most significant first, and every other one of the one before. */
  ghost predicate IteratesOf(hmac: Hmac, password: Bytes, salt: Bytes, i: nat, us: seq<Bytes>) {
    && us != []
    && (exists number: Bytes :: |number| == 4 && Der.Number(number) == i && us[0] == hmac(password, salt + number))
    && forall j :: 0 < j < |us| ==> us[j] == hmac(password, us[j - 1])
  }

  /** The exclusive-or of octet k of all of them. */
  function XorAll(us: seq<Bytes>, k: nat): (b: Byte)
    requires us != [] && forall j :: 0 <= j < |us| ==> k < |us[j]|
  {
    if |us| == 1 then us[0][k] else Xor(XorAll(us[..|us| - 1], k), us[|us| - 1][k])
  }

  lemma BlockNumberMeans(i: nat)
    requires i < 0x1_0000_0000
    ensures |BlockNumber(i)| == 4 && Der.Number(BlockNumber(i)) == i
  {
    FourOctets(i);
    var b := BlockNumber(i);
    Der.NumberUnfolds(b);
    Der.NumberUnfolds(b[..3]);
    Der.NumberUnfolds(b[..3][..2]);
    Der.NumberUnfolds(b[..3][..2][..1]);
    hide Der.Number, BlockNumber;
    assert b[..3][..2][..1][..0] == [];
    assert b[..3][2] == b[2] && b[..3][..2][1] == b[1] && b[..3][..2][..1][0] == b[0];
  }

  lemma {:induction false} FoldIsXor(hmac: Hmac, size: nat, password: Bytes, salt: Bytes, i: nat, c: nat)
    returns (us: seq<Bytes>)
    requires HasSize(hmac, size) && c > 0 && i < 0x1_0000_0000
    ensures |us| == c && IteratesOf(hmac, password, salt, i, us) && us[c - 1] == Iterated(hmac, password, salt, i, c)
    ensures forall j :: 0 <= j < |us| ==> |us[j]| == size
    ensures forall k :: 0 <= k < size ==> Folded(hmac, size, password, salt, i, c)[k] == XorAll(us, k)
    decreases c
  {
    hide Xor, BlockNumber;
    BlockNumberMeans(i);
    if c == 1 {
      us := [Iterated(hmac, password, salt, i, 1)];
    } else {
      var before := FoldIsXor(hmac, size, password, salt, i, c - 1);
      us := before + [Iterated(hmac, password, salt, i, c)];
      hide HasSize;
      MoreIterates(hmac, password, salt, i, before, us[c - 1]);
      assert us[..c - 1] == before;
    }
  }

  lemma MoreIterates(hmac: Hmac, password: Bytes, salt: Bytes, i: nat, us: seq<Bytes>, u: Bytes)
    requires IteratesOf(hmac, password, salt, i, us) && u == hmac(password, us[|us| - 1])
    ensures IteratesOf(hmac, password, salt, i, us + [u])
  {
  }

  lemma BlocksBlock(hmac: Hmac, size: nat, password: Bytes, salt: Bytes, c: nat, i: nat, n: nat)
    requires HasSize(hmac, size) && c > 0 && 0 < i <= n
    ensures i * size <= |Blocks(hmac, size, password, salt, c, n)|
    ensures BlockOf(Blocks(hmac, size, password, salt, c, n), size, i) == Folded(hmac, size, password, salt, i, c)
  {
    hide Folded;
    Before(i, size);
    AtLeast(n, i, size);
    BlocksLength(hmac, size, password, salt, c, i - 1);
    BlocksLength(hmac, size, password, salt, c, i);
    BlocksLength(hmac, size, password, salt, c, n);
    BlocksGrow(hmac, size, password, salt, c, i, n);
    var all, upTo := Blocks(hmac, size, password, salt, c, n), Blocks(hmac, size, password, salt, c, i);
    assert upTo == Blocks(hmac, size, password, salt, c, i - 1) + Folded(hmac, size, password, salt, i, c);
    hide Blocks;
    assert upTo[(i - 1) * size..i * size] == Folded(hmac, size, password, salt, i, c);
    assert all[..i * size] == upTo;
  }

  /** Every octet of a block of an output is the exclusive-or of that octet of all its iterates (section 5.2
      of RFC 8018). */
  lemma Pbkdf2Blocks(hmac: Hmac, size: nat, password: Bytes, salt: Bytes, iterations: nat, length: nat, i: nat)
    returns (us: seq<Bytes>)
    requires HasSize(hmac, size) && Pbkdf2(hmac, size, password, salt, iterations, length).Some?
    requires i > 0 && i * size <= length
    ensures |Pbkdf2(hmac, size, password, salt, iterations, length).value| == length
    ensures |us| == iterations && IteratesOf(hmac, password, salt, i, us)
    ensures forall j :: 0 <= j < |us| ==> |us[j]| == size
    ensures var block := BlockOf(Pbkdf2(hmac, size, password, salt, iterations, length).value, size, i);
      |block| == size && forall k :: 0 <= k < size ==> block[k] == XorAll(us, k)
  {
    AtLeast(size, 1, i);
    assert i * size == size * i;
    Before(i, size);
    BlocksLength(hmac, size, password, salt, iterations, length);
    BlocksBlock(hmac, size, password, salt, iterations, i, length);
    us := FoldIsXor(hmac, size, password, salt, i, iterations);
    hide Blocks, Folded, XorAll, IteratesOf;
    var all := Blocks(hmac, size, password, salt, iterations, length);
    assert all[..length][(i - 1) * size..i * size] == all[(i - 1) * size..i * size];
  }

  /** No two blocks of a permitted output have the same number. */
  lemma BlockNumbersDiffer(i: nat, j: nat)
    requires i < j <= MAX_OUTPUT
    ensures BlockNumber(i) != BlockNumber(j)
  {
    if BlockNumber(i) == BlockNumber(j) {
      assert BlockNumber(i)[3] == BlockNumber(j)[3] && BlockNumber(i)[2] == BlockNumber(j)[2];
      assert BlockNumber(i)[1] == BlockNumber(j)[1] && BlockNumber(i)[0] == BlockNumber(j)[0];
      FourOctets(i);
      FourOctets(j);
      assert false;
    }
  }

  lemma FourOctets(i: nat)
    requires i < 0x1_0000_0000
    ensures var b := BlockNumber(i);
      i == 0x100_0000 * b[0] as int + 0x1_0000 * b[1] as int + 0x100 * b[2] as int + b[3] as int
  {
    var a := i / 0x100;
    var b := a / 0x100;
    assert i / 0x1_0000 == b;
    assert i / 0x100_0000 == b / 0x100;
    assert b / 0x100 % 256 == b / 0x100;
  }
}
