/** The client's handshake response ("Protocol::HandshakeResponse41") and the check of its token
    ("Native Authentication"). SHA-1 is a parameter: any function with 20-byte results. */
module Auth {
  import opened Bits
  import opened LenEnc

  const LENENC_DATA: nat := 0x20_0000
  /** A payload that readPacket returns is shorter than this. */
  const PACKET_LIMIT: nat := 0x100_0000

  const SECURE_CONNECTION: nat := 0x8000

  /** OutOfRange stands for a Go slice expression whose bounds are out of range. */
  datatype Response = Parsed(user: Bytes, token: Bytes, caps: nat) | Malformed | OutOfRange

  /** Index of the first NUL at or after i, or |b|. */
  function NulFrom(b: Bytes, i: nat): (r: nat)
    requires i <= |b|
    ensures i <= r <= |b|
    ensures r < |b| ==> b[r] == 0
    ensures forall j :: i <= j < r ==> b[j] != 0
    decreases |b| - i
  {
    if i == |b| || b[i] == 0 then i else NulFrom(b, i + 1)
  }

  /** Go's need(n): n is an int, and pos + n wraps. */
  predicate Need(b: Bytes, pos: nat, n: int) {
    Wrap64(pos + n) <= |b|
  }

  /** The slice b[pos : pos+n] after need(n) has passed. */
  function Sliced(b: Bytes, pos: nat, n: int, user: Bytes, caps: nat): Response {
    if !Need(b, pos, n) then Malformed
    else if pos <= Wrap64(pos + n) <= |b| then Parsed(user, b[pos..Wrap64(pos + n)], caps)
    else OutOfRange
  }

  function ParseToken(b: Bytes, pos: nat, user: Bytes, caps: nat): Response
    requires pos <= |b|
  {
    if BitAnd(caps, LENENC_DATA) != 0 then
      match Decode(b[pos..])
      case Short => Malformed
      case Decoded(l, n) => Sliced(b, pos + n, Wrap64(l), user, caps)
    else if BitAnd(caps, SECURE_CONNECTION) != 0 then
      if pos == |b| then Malformed else Sliced(b, pos + 1, b[pos], user, caps)
    else
      var end := NulFrom(b, pos);
      if end == |b| then Malformed else Parsed(user, b[pos..end], caps)
  }

  function Parse(b: Bytes): Response {
    if |b| < 32 then Malformed
    else
      var end := NulFrom(b, 32);
      if end == |b| then Malformed
      else ParseToken(b, end + 1, b[32..end], FromLittleEndian(b[..4]))
  }

  /** bytes.IndexByte(b[pos:], 0), as a position in b. */
  method IndexNul(b: Bytes, pos: nat) returns (end: nat)
    requires pos <= |b|
    ensures end == NulFrom(b, pos)
  {
    end := pos;
    while end < |b| && b[end] != 0
      invariant pos <= end <= |b|
      invariant NulFrom(b, end) == NulFrom(b, pos)
    {
      end := end + 1;
    }
  }

  /** receiveAuthPacket on the payload of its packet, position by position. */
  method ReceiveAuth(packet: Bytes) returns (r: Response)
    requires |packet| < PACKET_LIMIT
    ensures r == Parse(packet)
  {
    hide BitAnd;
    hide BitOr;
    hide Shl;
    hide ParseToken;
    hide FromLittleEndian;
    var pos: nat := 0;
    if !Need(packet, pos, 4) {
      return Malformed;
    }
    CapsBytes(packet[..4]);
    var caps := BitOr(BitOr(BitOr(packet[pos], Shl(packet[pos + 1], 8)), Shl(packet[pos + 2], 16)),
                      Shl(packet[pos + 3], 24));
    pos := pos + 4;
    if !Need(packet, pos, 4) {
      return Malformed;
    }
    pos := pos + 4;
    if !Need(packet, pos, 1) {
      return Malformed;
    }
    pos := pos + 1;
    if !Need(packet, pos, 23) {
      return Malformed;
    }
    pos := pos + 23;
    var end := IndexNul(packet, pos);
    if end == |packet| {
      return Malformed;
    }
    var user := packet[pos..end];
    pos := end + 1;
    r := ReceiveToken(packet, pos, user, caps);
  }

  method ReceiveToken(packet: Bytes, start: nat, user: Bytes, caps: nat) returns (r: Response)
    requires start <= |packet| < PACKET_LIMIT
    ensures r == ParseToken(packet, start, user, caps)
  {
    var pos := start;
    if BitAnd(caps, LENENC_DATA) != 0 {
      var l, n, ok := ReadLenEncInt(packet[pos..]);
      if !ok {
        return Malformed;
      }
      pos := pos + n;
      r := Sliced(packet, pos, Wrap64(l), user, caps);
    } else if BitAnd(caps, SECURE_CONNECTION) != 0 {
      if !Need(packet, pos, 1) {
        return Malformed;
      }
      var l: int := packet[pos];
      pos := pos + 1;
      r := Sliced(packet, pos, l, user, caps);
    } else {
      var end := IndexNul(packet, pos);
      if end == |packet| {
        return Malformed;
      }
      r := Parsed(user, packet[pos..end], caps);
    }
  }

  lemma CapsBytes(b: Bytes)
    requires |b| == 4
    ensures BitOr(BitOr(BitOr(b[0], Shl(b[1], 8)), Shl(b[2], 16)), Shl(b[3], 24)) == FromLittleEndian(b)
  {
    assert b[..1] == [] + [b[0]] && b[..2] == b[..1] + [b[1]] && b[..3] == b[..2] + [b[2]] && b == b[..3] + [b[3]];
    AppendByte([], b[0]);
    OrNextByte(b[..1], b[1]);
    OrNextByte(b[..2], b[2]);
    OrNextByte(b[..3], b[3]);
  }

  // ---------- printing, and reading back ----------

  /** The token in the form the capabilities select. */
  function PrintToken(caps: nat, token: Bytes): Bytes {
    if BitAnd(caps, LENENC_DATA) != 0 then EncodeString(token)
    else if BitAnd(caps, SECURE_CONNECTION) != 0 then [|token| % 256] + token
    else token + [0]
  }

  /** What the selected form can carry. */
  predicate Printable(caps: nat, token: Bytes) {
    if BitAnd(caps, LENENC_DATA) != 0 then |token| < TWO_63
    else if BitAnd(caps, SECURE_CONNECTION) != 0 then |token| < 256
    else 0 !in token
  }

  /** middle is the maximum packet size, the character set and the 23 reserved bytes. */
  function Print(caps: nat, middle: Bytes, user: Bytes, token: Bytes, extra: Bytes): Bytes {
    LittleEndian(caps, 4) + middle + user + [0] + PrintToken(caps, token) + extra
  }

  lemma {:induction false} NulAfter(b: Bytes, i: nat, end: nat)
    requires i <= end < |b| && b[end] == 0
    requires forall j :: i <= j < end ==> b[j] != 0
    ensures NulFrom(b, i) == end
    decreases end - i
  {
    if i < end {
      NulAfter(b, i + 1, end);
    }
  }

  lemma LenEncToken(b: Bytes, pos: nat, user: Bytes, caps: nat, token: Bytes, extra: Bytes)
    requires pos <= |b| < PACKET_LIMIT && b[pos..] == EncodeString(token) + extra
    requires BitAnd(caps, LENENC_DATA) != 0
    ensures ParseToken(b, pos, user, caps) == Parsed(user, token, caps)
  {
    hide Encode;
    hide Decode;
    hide BitAnd;
    assert |token| < PACKET_LIMIT;
    var code := Encode(|token|);
    assert b[pos..] == code + (token + extra);
    RoundTrip(|token|, token + extra);
    SliceAt(b, pos, code, token, extra);
  }

  lemma OneByteToken(b: Bytes, pos: nat, user: Bytes, caps: nat, token: Bytes, extra: Bytes)
    requires pos <= |b| < PACKET_LIMIT && |token| < 256 && b[pos..] == [|token|] + token + extra
    requires BitAnd(caps, LENENC_DATA) == 0 && BitAnd(caps, SECURE_CONNECTION) != 0
    ensures ParseToken(b, pos, user, caps) == Parsed(user, token, caps)
  {
    hide BitAnd;
    assert b[pos..] == [|token|] + (token + extra);
    SliceAt(b, pos, [|token|], token, extra);
    assert b[pos] == b[pos..][0];
  }

  lemma NulToken(b: Bytes, pos: nat, user: Bytes, caps: nat, token: Bytes, extra: Bytes)
    requires pos <= |b| && 0 !in token && b[pos..] == token + [0] + extra
    requires BitAnd(caps, LENENC_DATA) == 0 && BitAnd(caps, SECURE_CONNECTION) == 0
    ensures ParseToken(b, pos, user, caps) == Parsed(user, token, caps)
  {
    hide BitAnd;
    assert b[pos..] == [] + (token + ([0] + extra));
    SliceAt(b, pos, [], token, [0] + extra);
    var end := pos + |token|;
    assert b[end] == b[pos..][|token|] == 0;
    forall j | pos <= j < end ensures b[j] != 0 {
      assert b[j] == b[pos..end][j - pos] == token[j - pos];
    }
    NulAfter(b, pos, end);
  }

  lemma TokenRoundTrip(b: Bytes, pos: nat, user: Bytes, caps: nat, token: Bytes, extra: Bytes)
    requires pos <= |b| < PACKET_LIMIT && b[pos..] == PrintToken(caps, token) + extra
    requires Printable(caps, token)
    ensures ParseToken(b, pos, user, caps) == Parsed(user, token, caps)
  {
    hide BitAnd;
    hide ParseToken;
    if BitAnd(caps, LENENC_DATA) != 0 {
      LenEncToken(b, pos, user, caps, token, extra);
    } else if BitAnd(caps, SECURE_CONNECTION) != 0 {
      OneByteToken(b, pos, user, caps, token, extra);
    } else {
      NulToken(b, pos, user, caps, token, extra);
    }
  }

  lemma SliceAt(b: Bytes, pos: nat, head: Bytes, token: Bytes, extra: Bytes)
    requires pos <= |b| && b[pos..] == head + (token + extra)
    ensures pos + |head| + |token| <= |b|
    ensures b[pos + |head|..pos + |head| + |token|] == token
  {
    var t := b[pos..];
    assert |t| == |head| + |token| + |extra|;
    var lo, hi := |head|, |head| + |token|;
    assert t[lo..hi] == token;
    forall k | 0 <= k < |token| ensures b[pos + lo..pos + hi][k] == token[k] {
      assert b[pos + lo + k] == t[lo + k] == token[k];
    }
  }

  lemma CapsRoundTrip(caps: nat)
    requires caps < 0x1_0000_0000
    ensures FromLittleEndian(LittleEndian(caps, 4)) == caps
  {
    Powers();
    Pow2Add(16, 16);
    LittleEndianRoundTrip(caps, 4);
  }

  /** For any capabilities, a NUL-free user and a token the selected form can carry, printed and
      followed by anything, the parser returns the three unchanged. */
  lemma PrintParse(caps: nat, middle: Bytes, user: Bytes, token: Bytes, extra: Bytes)
    requires caps < 0x1_0000_0000 && |middle| == 28 && 0 !in user && Printable(caps, token)
    requires |Print(caps, middle, user, token, extra)| < PACKET_LIMIT
    ensures Parse(Print(caps, middle, user, token, extra)) == Parsed(user, token, caps)
  {
    hide BitAnd;
    hide PrintToken;
    hide ParseToken;
    hide LittleEndian;
    hide FromLittleEndian;
    var b := Print(caps, middle, user, token, extra);
    var end := 32 + |user|;
    assert b[..4] == LittleEndian(caps, 4);
    CapsRoundTrip(caps);
    assert b[32..end] == user;
    forall j | 32 <= j < end ensures b[j] != 0 {
      assert b[j] == user[j - 32];
    }
    NulAfter(b, 32, end);
    assert b[end + 1..] == PrintToken(caps, token) + extra;
    TokenRoundTrip(b, end + 1, user, caps, token, extra);
  }

  /** The declared length of the token, and where the token would start. */
  function Declared(b: Bytes): (r: (int, nat)) {
    if |b| < 32 || NulFrom(b, 32) == |b| then (0, 0)
    else
      var pos := NulFrom(b, 32) + 1;
      if BitAnd(FromLittleEndian(b[..4]), LENENC_DATA) != 0 then
        match Decode(b[pos..])
        case Short => (0, 0)
        case Decoded(l, n) => (l, pos + n)
      else (0, 0)
  }

  /** Exactly when the slice stays in bounds or the parser reports an error: the declared length
      must not carry the position past the largest int. */
  lemma InBoundsIff(b: Bytes)
    requires |b| < PACKET_LIMIT
    ensures Parse(b) != OutOfRange <==> Declared(b).0 + Declared(b).1 < TWO_63
  {
    hide BitAnd;
    hide Decode;
    if |b| >= 32 && NulFrom(b, 32) < |b| {
      var pos := NulFrom(b, 32) + 1;
      if BitAnd(FromLittleEndian(b[..4]), LENENC_DATA) != 0 && Decode(b[pos..]).Decoded? {
        var l, n := Decode(b[pos..]).value, Decode(b[pos..]).size;
        DecodedSize(b[pos..]);
      }
    }
  }

  lemma DecodedSize(b: Bytes)
    requires Decode(b).Decoded?
    ensures Decode(b).size <= |b|
  {
  }

  /** In particular every declared length below 2^62 is safe. */
  lemma BelowTwo62IsSafe(b: Bytes)
    requires |b| < PACKET_LIMIT && Declared(b).0 < 0x4000_0000_0000_0000
    ensures Parse(b) != OutOfRange
  {
    hide BitAnd;
    hide Decode;
    InBoundsIff(b);
    if |b| >= 32 && NulFrom(b, 32) < |b| {
      var pos := NulFrom(b, 32) + 1;
      if Decode(b[pos..]).Decoded? {
        DecodedSize(b[pos..]);
      }
    }
  }

  /** A packet that declares the token length v, whatever follows. */
  function Declaring(caps: nat, middle: Bytes, user: Bytes, v: u64, extra: Bytes): Bytes {
    LittleEndian(caps, 4) + middle + user + [0] + Encode(v) + extra
  }

  lemma DeclaredIs(caps: nat, middle: Bytes, user: Bytes, v: u64, extra: Bytes)
    requires caps < 0x1_0000_0000 && |middle| == 28 && 0 !in user && BitAnd(caps, LENENC_DATA) != 0
    ensures Declared(Declaring(caps, middle, user, v, extra)) == (v, 33 + |user| + CodeLength(v))
  {
    hide BitAnd, LittleEndian, FromLittleEndian, Encode, Decode;
    var b, end := Declaring(caps, middle, user, v, extra), 32 + |user|;
    assert b[..4] == LittleEndian(caps, 4);
    CapsRoundTrip(caps);
    assert b[32..end] == user;
    forall j | 32 <= j < end ensures b[j] != 0 {
      assert b[j] == user[j - 32];
    }
    NulAfter(b, 32, end);
    assert b[end + 1..] == Encode(v) + extra;
    RoundTrip(v, extra);
  }

  lemma BitAndSelf(a: nat)
    ensures BitAnd(a, a) == a
  {
    if a > 0 { BitAndSelf(a / 2); }
  }

  /** A short packet that panics: no user, and a token of 2^63 - 1 bytes declared. */
  lemma OverflowPanics(middle: Bytes)
    requires |middle| == 28
    ensures Parse(Declaring(LENENC_DATA, middle, [], 0x7fff_ffff_ffff_ffff, [])) == OutOfRange
  {
    BitAndSelf(LENENC_DATA);
    hide BitAnd, Parse;
    DeclaredIs(LENENC_DATA, middle, [], 0x7fff_ffff_ffff_ffff, []);
    InBoundsIff(Declaring(LENENC_DATA, middle, [], 0x7fff_ffff_ffff_ffff, []));
  }

  // ---------- the token ----------

  method XorBytes(a: Bytes, b: Bytes) returns (out: Bytes)
    ensures out == Xor(a, b)
  {
    hide BitXor;
    hide Xor;
    var n := |a|;
    if |b| < n {
      n := |b|;
    }
    out := [];
    for i := 0 to n
      invariant out + Xor(a[i..], b[i..]) == Xor(a, b)
    {
      XorHead(a, b, i);
      out := out + [BitXor(a[i], b[i])];
    }
    assert out + [] == out;
  }

  /** Bytewise XOR over the common length. */
  function Xor(a: Bytes, b: Bytes): (r: Bytes)
    ensures |r| == if |a| < |b| then |a| else |b|
  {
    if a == [] || b == [] then [] else
      XorByte(a[0], b[0]);
      [BitXor(a[0], b[0])] + Xor(a[1..], b[1..])
  }

  lemma XorHead(a: Bytes, b: Bytes, i: nat)
    requires i < |a| && i < |b|
    ensures BitXor(a[i], b[i]) < 256
    ensures Xor(a[i..], b[i..]) == [BitXor(a[i], b[i])] + Xor(a[i + 1..], b[i + 1..])
  {
    hide BitXor;
    XorByte(a[i], b[i]);
    assert a[i..][1..] == a[i + 1..] && b[i..][1..] == b[i + 1..];
  }

  lemma XorByte(a: byte, b: byte)
    ensures BitXor(a, b) < 256
  {
    Powers();
    XorBelow(a, b, 8);
  }

  lemma {:induction false} XorUndoes(a: Bytes, b: Bytes)
    requires |a| == |b|
    ensures Xor(Xor(a, b), b) == a
  {
    if a != [] {
      XorByte(a[0], b[0]);
      XorTwice(a[0], b[0]);
      XorUndoes(a[1..], b[1..]);
      assert Xor(a, b)[1..] == Xor(a[1..], b[1..]);
    }
  }

  type Name = Bytes

  const AT: byte := 64
  const PERCENT: byte := 37

  datatype AuthorityUser = AuthorityUser(user: Name, password: Bytes)

  /** strings.Split(pattern, "@") with exactly two parts: the part before the one "@". */
  function Before(pattern: Name): (r: Matcher) {
    if CountAt(pattern) == 1 then Pattern(UpToAt(pattern)) else Exact
  }

  datatype Matcher = Exact | Pattern(name: Name)

  function CountAt(s: Name): nat {
    if s == [] then 0 else (if s[0] == AT then 1 else 0) + CountAt(s[1..])
  }

  function UpToAt(s: Name): Name {
    if s == [] || s[0] == AT then [] else [s[0]] + UpToAt(s[1..])
  }

  predicate MatchUserPattern(pattern: Name, username: Name) {
    match Before(pattern)
    case Exact => pattern == username
    case Pattern(name) => name == [PERCENT] || name == username
  }

  predicate Accepts(u: AuthorityUser, username: Name) {
    u.user == username || MatchUserPattern(u.user, username)
  }

  lemma {:induction false} HostPattern(name: Name, host: Name)
    requires AT !in name && AT !in host
    ensures Before(name + [AT] + host) == Pattern(name)
  {
    NoAt(host);
    if name == [] {
      assert name + [AT] + host == [AT] + host;
      assert ([AT] + host)[1..] == host;
    } else {
      HostPattern(name[1..], host);
      assert (name + [AT] + host)[1..] == name[1..] + [AT] + host;
    }
  }

  lemma NoAt(s: Name)
    requires AT !in s
    ensures CountAt(s) == 0
  {
  }

  datatype Lookup = Found(user: AuthorityUser) | NotFound

  method GetAuthorityUser(users: seq<AuthorityUser>, username: Name) returns (r: Lookup)
    ensures r == FirstUser(users, username)
  {
    for i := 0 to |users|
      invariant FirstUser(users[i..], username) == FirstUser(users, username)
    {
      if users[i].user == username || MatchUserPattern(users[i].user, username) {
        return Found(users[i]);
      }
    }
    return NotFound;
  }

  function FirstUser(users: seq<AuthorityUser>, username: Name): Lookup {
    if users == [] then NotFound
    else if Accepts(users[0], username) then Found(users[0])
    else FirstUser(users[1..], username)
  }

  type Hash = Bytes -> Bytes

  ghost predicate Digest20(sha: Hash) {
    forall b :: |sha(b)| == 20
  }

  /** The token of a password for a scramble. */
  function Token(sha: Hash, password: Bytes, scramble: Bytes): Bytes
    requires |scramble| >= 20
  {
    Xor(sha(password), sha(scramble[..20] + sha(sha(password))))
  }

  /** The password a user name is checked against: the first authority user it matches, else the
      proxy user of exactly that name. */
  datatype Secret = Secret(password: Bytes) | Unknown

  function SecretOf(users: seq<AuthorityUser>, proxy: AuthorityUser, username: Name): Secret {
    match FirstUser(users, username)
    case Found(u) => Secret(u.password)
    case NotFound => if proxy.user == username then Secret(proxy.password) else Unknown
  }

  method AuthenticateNative(sha: Hash, users: seq<AuthorityUser>, proxy: AuthorityUser,
                            username: Name, authResp: Bytes, scramble: Bytes) returns (ok: bool)
    requires Digest20(sha) && |scramble| == 20
    ensures ok <==>
      SecretOf(users, proxy, username).Secret?
      && authResp == Token(sha, SecretOf(users, proxy, username).password, scramble)
  {
    if |users| > 0 {
      var found := GetAuthorityUser(users, username);
      if found.Found? {
        ok := CheckToken(sha, found.user.password, authResp, scramble);
        return;
      }
    }
    if proxy.user != username {
      return false;
    }
    ok := CheckToken(sha, proxy.password, authResp, scramble);
  }

  method CheckToken(sha: Hash, password: Bytes, authResp: Bytes, scramble: Bytes) returns (ok: bool)
    requires Digest20(sha) && |scramble| == 20
    ensures ok <==> authResp == Token(sha, password, scramble)
  {
    var sha1pwd := sha(password);
    var sha1sha1pwd := sha(sha1pwd);
    var check := sha(scramble[..20] + sha1sha1pwd);
    var expected := XorBytes(sha1pwd, check);
    if |authResp| != |expected| {
      return false;
    }
    for i := 0 to |expected|
      invariant authResp[..i] == expected[..i]
    {
      if authResp[i] != expected[i] {
        return false;
      }
    }
    assert authResp == authResp[..|expected|] && expected == expected[..|expected|];
    return true;
  }

  /** XOR-ing a valid token with the server's check value gives SHA-1 of the password back. */
  lemma TokenReveals(sha: Hash, password: Bytes, scramble: Bytes)
    requires Digest20(sha) && |scramble| == 20
    ensures Xor(Token(sha, password, scramble), sha(scramble[..20] + sha(sha(password)))) == sha(password)
    ensures |Token(sha, password, scramble)| == 20
  {
    XorUndoes(sha(password), sha(scramble[..20] + sha(sha(password))));
  }

  /** Two passwords with one token for a scramble have digests that agree only together with
      their check values: the token determines the digest given the check value. */
  lemma {:induction false} XorInjective(a: Bytes, b: Bytes, mask: Bytes)
    requires |a| == |b| == |mask| && Xor(a, mask) == Xor(b, mask)
    ensures a == b
  {
    XorUndoes(a, mask);
    XorUndoes(b, mask);
  }
}
