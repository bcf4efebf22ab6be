/** The sequential logic of the `securedata` package: the heuristic that
    tells raw OpenPGP data from plain data, and the option pipeline that
    builds an OpenPGP handler. Encryption, decryption and signature checks
    are calls into the OpenPGP library and are not part of this module. */
module SecureData {
  import opened Common

  // ---------------------------------------------------------------------
  // Detecting raw OpenPGP data
  // ---------------------------------------------------------------------

  /** How many bytes the detector asks the buffered reader for. */
  const PeekLength: nat := 20

  // The packet tags the detector looks for (section 5 of RFC 9580).
  const PublicKeyEncryptedSessionKeyPacket: bv8 := 1
  const SignaturePacket: bv8 := 2
  const OnePassSignaturePacket: bv8 := 4
  const CompressedDataPacket: bv8 := 8
  const SymmetricallyEncryptedDataPacket: bv8 := 9

  /** The low six bits of a byte, read as a packet tag. The detector
      applies this to every byte it sees, not only to packet headers. */
  function PacketTag(b: bv8): (tag: bv8)
  {
    b & 0x3F
  }

  /** The five tags that make the detector answer "encrypted". */
  predicate IsDetectedTag(tag: bv8)
  {
    || tag == PublicKeyEncryptedSessionKeyPacket
    || tag == SymmetricallyEncryptedDataPacket
    || tag == CompressedDataPacket
    || tag == OnePassSignaturePacket
    || tag == SignaturePacket
  }

  /** The input behind the buffered reader: the bytes it can still deliver,
      then either a clean end of file or a read error. */
  datatype StreamEnd = AtEof | ReadError(err: Error)
  datatype Stream = Stream(data: seq<bv8>, end: StreamEnd)

  /** The error half of what `Peek` returns: none, end of file, or
      another error. */
  datatype PeekStatus = PeekOk | PeekEof | PeekFailed(err: Error)

  /** The `(bytes, error)` pair `Peek` returns. */
  datatype Peeked = Peeked(bytes: seq<bv8>, status: PeekStatus)

  /** The buffered reader's `Peek(n)`: the next `n` bytes and no error when
      that many are available, otherwise every remaining byte together with
      whatever ended the stream. The reader's buffer is assumed to hold at
      least `n` bytes. */
  function Peek(s: Stream, n: nat): (p: Peeked)
  {
    if n <= |s.data| then Peeked(s.data[..n], PeekOk)
    else Peeked(s.data, match s.end case AtEof => PeekEof case ReadError(e) => PeekFailed(e))
  }

  /** The bytes the detector scans (when the peek does not fail). */
  function Window(s: Stream): (w: seq<bv8>)
  {
    Peek(s, PeekLength).bytes
  }

  /** Some byte of `bytes` carries one of the five tags in its low bits. */
  ghost predicate HasDetectedTag(bytes: seq<bv8>)
  {
    exists i :: 0 <= i < |bytes| && IsDetectedTag(PacketTag(bytes[i]))
  }

  /** The `(bool, error)` pair the detector returns. */
  datatype Detection = Detection(encrypted: bool, err: Option<Error>)

  /** What the detector answers, stated without its loop: a failing peek
      is passed on without looking at any byte; otherwise (end of file
      included) the answer is whether a peeked byte carries a tag. */
  ghost function Detect(s: Stream): (d: Detection)
  {
    var peeked := Peek(s, PeekLength);
    match peeked.status
    case PeekFailed(e) => Detection(false, Some(e))
    case _ => Detection(HasDetectedTag(peeked.bytes), None)
  }

  /** The detector itself: peek, pass on a non-EOF error, then scan the
      peeked bytes and stop at the first one whose low six bits are a
      detected tag. */
  method IsRawEncrypted(s: Stream) returns (encrypted: bool, err: Option<Error>)
    ensures Detection(encrypted, err) == Detect(s)
    ensures err.Some? <==> |s.data| < PeekLength && s.end.ReadError?
    ensures err.Some? ==> !encrypted && err.value == s.end.err
    ensures err.None? ==>
      (encrypted <==> exists i :: 0 <= i < |s.data| && i < PeekLength && IsDetectedTag(PacketTag(s.data[i])))
  {
    var peeked := Peek(s, PeekLength);
    var headerBytes := peeked.bytes;
    if peeked.status.PeekFailed? {
      return false, Some(peeked.status.err);
    }
    for i := 0 to |headerBytes|
      invariant forall j :: 0 <= j < i ==> !IsDetectedTag(PacketTag(headerBytes[j]))
    {
      var packetTag := headerBytes[i] & 0x3F;
      if packetTag == PublicKeyEncryptedSessionKeyPacket
        || packetTag == SymmetricallyEncryptedDataPacket
        || packetTag == CompressedDataPacket
        || packetTag == OnePassSignaturePacket
        || packetTag == SignaturePacket
      {
        assert IsDetectedTag(PacketTag(headerBytes[i]));
        return true, None;
      }
    }
    return false, None;
  }

  /** Bytes after the first `PeekLength` never change the answer, and
      neither does the way the stream ends after them. */
  lemma OnlyPeekedBytesMatter(s: Stream, rest: seq<bv8>, end: StreamEnd)
    requires PeekLength <= |s.data|
    ensures Detect(Stream(s.data + rest, end)) == Detect(s)
  {
    assert (s.data + rest)[..PeekLength] == s.data[..PeekLength];
  }

  /** An input shorter than `PeekLength` that ends cleanly is not an error:
      all of it is scanned. */
  lemma ShortInputIsScanned(s: Stream)
    requires |s.data| < PeekLength && s.end == AtEof
    ensures Detect(s) == Detection(HasDetectedTag(s.data), None)
  {
  }

  /** An empty input is plain data. */
  lemma EmptyInputIsPlain()
    ensures Detect(Stream([], AtEof)) == Detection(false, None)
  {
  }

  /** A read error before `PeekLength` bytes is returned as it is, and no
      byte decides the answer. */
  lemma ReadErrorIsPassedOn(s: Stream)
    requires |s.data| < PeekLength && s.end.ReadError?
    ensures Detect(s) == Detection(false, Some(s.end.err))
  {
  }

  /** Two byte strings of equal length whose bytes agree on their low six
      bits, position by position. */
  ghost predicate SameTags(a: seq<bv8>, b: seq<bv8>)
  {
    |a| == |b| && forall i :: 0 <= i < |a| ==> PacketTag(a[i]) == PacketTag(b[i])
  }

  /** Only the low six bits of the peeked bytes matter: two inputs whose
      windows agree on them, and which end the same way if they are short,
      get the same answer. */
  lemma OnlyLowSixBitsMatter(s: Stream, t: Stream)
    requires SameTags(Window(s), Window(t))
    requires |s.data| < PeekLength ==> s.end == t.end
    ensures Detect(s) == Detect(t)
  {
    var a, b := Window(s), Window(t);
    if HasDetectedTag(a) {
      var i :| 0 <= i < |a| && IsDetectedTag(PacketTag(a[i]));
      assert IsDetectedTag(PacketTag(b[i]));
    }
    if HasDetectedTag(b) {
      var i :| 0 <= i < |b| && IsDetectedTag(PacketTag(b[i]));
      assert IsDetectedTag(PacketTag(a[i]));
    }
  }

  /** A new-format packet header (section 4.2 of RFC 9580: bits 7 and 6
      set, tag in the low six bits) with a detected tag is detected. */
  lemma NewFormatHeaderIsDetected(tag: bv8, s: Stream)
    requires IsDetectedTag(tag)
    requires 0 < |s.data| && s.data[0] == 0xC0 | tag
    requires PeekLength <= |s.data| || s.end == AtEof
    ensures Detect(s) == Detection(true, None)
  {
    var w := Window(s);
    assert w[0] == 0xC0 | tag;
    assert IsDetectedTag(PacketTag(w[0]));
  }

  /** Because every byte is masked, plain text can be taken for OpenPGP
      data: an ASCII capital 'A' (0x41) reads as tag 1. */
  lemma CapitalAIsDetected(s: Stream)
    requires 0 < |s.data| && s.data[0] == 0x41
    requires PeekLength <= |s.data| || s.end == AtEof
    ensures Detect(s) == Detection(true, None)
  {
    assert Window(s)[0] == 0x41;
    assert IsDetectedTag(PacketTag(0x41));
  }

  // ---------------------------------------------------------------------
  // The handler and the options that configure it
  // ---------------------------------------------------------------------

  /** Key material, opaque to this model: keys are only told apart. */
  datatype Key = Key(fingerprint: seq<bv8>)

  /** The OpenPGP profile a new handler is bound to. */
  datatype Profile = RFC9580

  /** The option closures. A path option carries the outcome of reading the
      file and parsing the armored key in it, which is I/O and library code
      outside this model. */
  datatype HandlerOption =
    | WithPrivateKey(privKey: Option<Key>)
    | WithPublicKey(pubKey: Option<Key>)
    | WithPublicKeyPath(filePath: string, loaded: Result<Key>)
    | WithPrivateKeyPath(filePath: string, passphrase: string, loaded: Result<Key>)

  const PrivateKeyNil := Error("private key cannot be nil")
  const PublicKeyNil := Error("public key cannot be nil")

  /** The two key fields of a handler. */
  datatype KeyPair = KeyPair(privKey: Option<Key>, pubKey: Option<Key>)

  /** The keys of a handler no option has touched yet. */
  const NoKeys := KeyPair(None, None)

  /** The option writes the private key (otherwise the public key). */
  predicate SetsPrivateKey(opt: HandlerOption)
  {
    opt.WithPrivateKey? || opt.WithPrivateKeyPath?
  }

  /** The error an option's closure reports, if any. It depends on the
      option alone, never on the handler it is applied to. */
  function OptionError(opt: HandlerOption): (e: Option<Error>)
  {
    match opt
    case WithPrivateKey(k) => if k.None? then Some(PrivateKeyNil) else None
    case WithPublicKey(k) => if k.None? then Some(PublicKeyNil) else None
    case WithPublicKeyPath(_, r) => if r.Failure? then Some(r.error) else None
    case WithPrivateKeyPath(_, _, r) => if r.Failure? then Some(r.error) else None
  }

  /** The key an option hands to its closure (or loads), nil if none. */
  function OptionKey(opt: HandlerOption): (k: Option<Key>)
  {
    match opt
    case WithPrivateKey(k) => k
    case WithPublicKey(k) => k
    case WithPublicKeyPath(_, r) => if r.Success? then Some(r.value) else None
    case WithPrivateKeyPath(_, _, r) => if r.Success? then Some(r.value) else None
  }

  /** One option's closure, on the handler's keys: it fails exactly when the
      option reports an error, and then changes nothing; otherwise it stores
      a non-nil key in its own field and leaves the other field as it was. */
  function ApplyOption(keys: KeyPair, opt: HandlerOption): (r: Result<KeyPair>)
    ensures r.Failure? <==> OptionError(opt).Some?
    ensures r.Failure? ==> OptionError(opt) == Some(r.error)
    ensures r.Success? ==> OptionKey(opt).Some?
    ensures r.Success? && SetsPrivateKey(opt) ==> r.value == keys.(privKey := OptionKey(opt))
    ensures r.Success? && !SetsPrivateKey(opt) ==> r.value == keys.(pubKey := OptionKey(opt))
  {
    match opt
    case WithPrivateKey(k) =>
      if k.None? then Failure(PrivateKeyNil) else Success(keys.(privKey := k))
    case WithPublicKey(k) =>
      if k.None? then Failure(PublicKeyNil) else Success(keys.(pubKey := k))
    case WithPublicKeyPath(_, r) =>
      (match r
       case Failure(e) => Failure(e)
       case Success(k) => Success(keys.(pubKey := Some(k))))
    case WithPrivateKeyPath(_, _, r) =>
      (match r
       case Failure(e) => Failure(e)
       case Success(k) => Success(keys.(privKey := Some(k))))
  }

  /** The option loop on the handler's keys: options run in list order and
      the first error ends the loop. */
  function ApplyAll(keys: KeyPair, opts: seq<HandlerOption>): (r: Result<KeyPair>)
    decreases |opts|
  {
    if opts == [] then Success(keys)
    else
      match ApplyOption(keys, opts[0])
      case Failure(e) => Failure(e)
      case Success(next) => ApplyAll(next, opts[1..])
  }

  /** The key left in one field after running `opts` without errors: that of
      the last option writing the field, or `default` if none does. */
  ghost function LastKey(opts: seq<HandlerOption>, privateField: bool, default: Option<Key>): (k: Option<Key>)
  {
    if opts == [] then default
    else if SetsPrivateKey(opts[|opts| - 1]) == privateField then OptionKey(opts[|opts| - 1])
    else LastKey(opts[..|opts| - 1], privateField, default)
  }

  /** Running two lists of options one after the other is running their
      concatenation, and a failure in the first list skips the second. */
  lemma {:induction false} ApplyAllAppend(keys: KeyPair, a: seq<HandlerOption>, b: seq<HandlerOption>)
    ensures ApplyAll(keys, a + b) ==
      match ApplyAll(keys, a)
      case Failure(e) => Failure(e)
      case Success(mid) => ApplyAll(mid, b)
    decreases |a|
  {
    if a == [] {
      assert a + b == b;
    } else {
      assert (a + b)[0] == a[0];
      assert (a + b)[1..] == a[1..] + b;
      match ApplyOption(keys, a[0])
      case Failure(_) =>
      case Success(next) => ApplyAllAppend(next, a[1..], b);
    }
  }

  /** If option `k` is the first to report an error, the loop returns that
      error, whatever the options after `k` are. */
  lemma {:induction false} FirstErrorAborts(keys: KeyPair, opts: seq<HandlerOption>, k: nat)
    requires k < |opts|
    requires forall j :: 0 <= j < k ==> OptionError(opts[j]).None?
    requires OptionError(opts[k]).Some?
    ensures ApplyAll(keys, opts) == Failure(OptionError(opts[k]).value)
    decreases k
  {
    if k > 0 {
      assert OptionError(opts[0]).None?;
      var next := ApplyOption(keys, opts[0]).value;
      assert forall j :: 0 <= j < k - 1 ==> opts[1..][j] == opts[j + 1];
      FirstErrorAborts(next, opts[1..], k - 1);
    }
  }

  /** The loop succeeds exactly when no option reports an error. */
  lemma {:induction false} ApplyAllSucceedsIff(keys: KeyPair, opts: seq<HandlerOption>)
    ensures ApplyAll(keys, opts).Success? <==> forall j :: 0 <= j < |opts| ==> OptionError(opts[j]).None?
    decreases |opts|
  {
    if opts != [] {
      match ApplyOption(keys, opts[0])
      case Failure(_) =>
      case Success(next) =>
        ApplyAllSucceedsIff(next, opts[1..]);
        assert forall j :: 0 <= j < |opts| - 1 ==> opts[1..][j] == opts[j + 1];
    }
  }

  /** Without errors, each field ends up holding the key of the last option
      that writes it, or its initial value if no option does. */
  lemma {:induction false} ApplyAllKeepsLastKeys(keys: KeyPair, opts: seq<HandlerOption>)
    requires forall j :: 0 <= j < |opts| ==> OptionError(opts[j]).None?
    ensures ApplyAll(keys, opts) ==
      Success(KeyPair(LastKey(opts, true, keys.privKey), LastKey(opts, false, keys.pubKey)))
    decreases |opts|
  {
    if opts != [] {
      var init, last := opts[..|opts| - 1], opts[|opts| - 1];
      ApplyAllKeepsLastKeys(keys, init);
      ApplyAllAppend(keys, init, [last]);
      assert init + [last] == opts;
      var mid := ApplyAll(keys, init).value;
      assert ApplyAll(mid, [last]) == ApplyOption(mid, last);
    }
  }

  /** A handler: the OpenPGP profile it is bound to and its two keys, which
      the option closures write in place. */
  class OpenPGPSecureHandler {
    const pgpHandle: Profile
    var privKey: Option<Key>
    var pubKey: Option<Key>

    /** The handler's two key fields as a value. */
    function Keys(): (keys: KeyPair)
      reads this
    {
      KeyPair(privKey, pubKey)
    }

    /** A handler bound to the RFC 9580 profile, with no keys. */
    constructor ()
      ensures pgpHandle == RFC9580 && Keys() == NoKeys
    {
      pgpHandle := RFC9580;
      privKey := None;
      pubKey := None;
    }

    /** Calls one option's closure on this handler. */
    method Apply(opt: HandlerOption) returns (err: Option<Error>)
      modifies this
      ensures err == OptionError(opt)
      ensures err.Some? ==> Keys() == old(Keys())
      ensures err.None? ==> Keys() == ApplyOption(old(Keys()), opt).value
    {
      match opt
      case WithPrivateKey(k) =>
        if k.None? {
          return Some(PrivateKeyNil);
        }
        privKey := k;
        return None;
      case WithPublicKey(k) =>
        if k.None? {
          return Some(PublicKeyNil);
        }
        pubKey := k;
        return None;
      case WithPublicKeyPath(_, r) =>
        if r.Failure? {
          return Some(r.error);
        }
        pubKey := Some(r.value);
        return None;
      case WithPrivateKeyPath(_, _, r) =>
        if r.Failure? {
          return Some(r.error);
        }
        privKey := Some(r.value);
        return None;
    }
  }

  /** Builds a handler and runs the options on it in order; the first error
      is returned with no handler, and otherwise the configured handler is
      returned with no error. `applied` lists the options whose closure was
      called: every option up to and including the first failing one, and
      none after it. */
  method NewPGPSecureHandler(opts: seq<HandlerOption>)
    returns (handler: OpenPGPSecureHandler?, err: Option<Error>, ghost applied: seq<HandlerOption>)
    ensures ApplyAll(NoKeys, opts).Failure? ==>
      handler == null && err == Some(ApplyAll(NoKeys, opts).error)
    ensures ApplyAll(NoKeys, opts).Success? ==>
      && err == None
      && handler != null && fresh(handler)
      && handler.pgpHandle == RFC9580
      && handler.Keys() == ApplyAll(NoKeys, opts).value
    ensures |applied| <= |opts| && applied == opts[..|applied|]
    ensures forall j :: 0 <= j < |applied| - 1 ==> OptionError(applied[j]).None?
    ensures err.None? ==> applied == opts
    ensures err.Some? ==> 0 < |applied| && err == OptionError(applied[|applied| - 1])
  {
    var h := new OpenPGPSecureHandler();
    applied := [];
    var i := 0;
    while i < |opts|
      invariant 0 <= i <= |opts|
      invariant fresh(h) && h.pgpHandle == RFC9580
      invariant ApplyAll(NoKeys, opts[..i]) == Success(h.Keys())
      invariant applied == opts[..i]
      invariant forall j :: 0 <= j < i ==> OptionError(opts[j]).None?
    {
      ghost var before := h.Keys();
      var e := h.Apply(opts[i]);
      applied := applied + [opts[i]];
      ApplyAllAppend(NoKeys, opts[..i], [opts[i]]);
      assert opts[..i] + [opts[i]] == opts[..i + 1];
      assert ApplyAll(before, [opts[i]]) == ApplyOption(before, opts[i]);
      if e.Some? {
        ApplyAllAppend(NoKeys, opts[..i + 1], opts[i + 1..]);
        assert opts[..i + 1] + opts[i + 1..] == opts;
        return null, e, applied;
      }
      i := i + 1;
    }
    assert opts[..i] == opts;
    return h, None, applied;
  }
}
