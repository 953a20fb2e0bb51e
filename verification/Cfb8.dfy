/** The CFB8 cipher and the encrypting stream over a socket that may accept writes in part
    (`loadstone-net/src/crypto.rs`).

    The block cipher is any function on 16-byte blocks. The mode is the cipher feedback mode of
    NIST SP 800-38A, section 6.3, with 8-bit segments; `IsCfb8` states it pointwise. */
module Cfb8 {
  const BLOCK_LEN: nat := 16

  type Block = b: seq<bv8> | |b| == BLOCK_LEN witness [0, 0, 0, 0, 0, 0, 0, 0, 0, 0, 0, 0, 0, 0, 0, 0]

  type BlockCipher = Block -> Block

  function Shift(reg: Block, b: bv8): Block { reg[1..] + [b] }

  function Xor(a: bv8, b: bv8): bv8 { a ^ b }

  lemma XorTwice(a: bv8, b: bv8)
    ensures Xor(Xor(a, b), b) == a
  {}

  /** Ciphertext of `plain`, starting from register `reg`. */
  function Encrypt(E: BlockCipher, reg: Block, plain: seq<bv8>): (c: seq<bv8>)
    ensures |c| == |plain|
    decreases |plain|
  {
    if |plain| == 0 then []
    else
      var b := Xor(plain[0], E(reg)[0]);
      [b] + Encrypt(E, Shift(reg, b), plain[1..])
  }

  /** Plaintext of `cipher`, starting from register `reg`. */
  function Decrypt(E: BlockCipher, reg: Block, cipher: seq<bv8>): (p: seq<bv8>)
    ensures |p| == |cipher|
    decreases |cipher|
  {
    if |cipher| == 0 then []
    else [Xor(cipher[0], E(reg)[0])] + Decrypt(E, Shift(reg, cipher[0]), cipher[1..])
  }

  /** The register after some ciphertext: the last 16 bytes of IV and ciphertext together. */
  function RegisterAfter(reg: Block, cipher: seq<bv8>): (r: Block)
  {
    (reg + cipher)[|cipher|..]
  }

  /** The standard's definition: segment `j` is the plaintext xor the first byte of the enciphered
      input block, and the input block is the last 16 bytes of IV and ciphertext so far. */
  ghost predicate IsCfb8(E: BlockCipher, iv: Block, plain: seq<bv8>, cipher: seq<bv8>) {
    && |cipher| == |plain|
    && forall j :: 0 <= j < |plain| ==> cipher[j] == Xor(plain[j], E(RegisterAfter(iv, cipher[..j]))[0])
  }

  lemma RegisterStep(reg: Block, b: bv8, cipher: seq<bv8>)
    ensures RegisterAfter(Shift(reg, b), cipher) == RegisterAfter(reg, [b] + cipher)
  {
    assert Shift(reg, b) + cipher == (reg + ([b] + cipher))[1..];
  }

  /** Following one byte of ciphertext, the rest is CFB8 from the shifted register. */
  lemma IsCfb8Step(E: BlockCipher, iv: Block, plain: seq<bv8>, cipher: seq<bv8>)
    requires |plain| == |cipher| > 0
    ensures IsCfb8(E, iv, plain, cipher)
       <==> cipher[0] == Xor(plain[0], E(iv)[0]) && IsCfb8(E, Shift(iv, cipher[0]), plain[1..], cipher[1..])
  {
    hide Xor, RegisterAfter, Shift;
    var c, rest := cipher[0], cipher[1..];
    RegisterNone(iv);
    assert cipher[..0] == [];
    forall j | 0 <= j < |rest|
      ensures RegisterAfter(iv, cipher[..j + 1]) == RegisterAfter(Shift(iv, c), rest[..j])
    {
      RegisterStep(iv, c, rest[..j]);
      assert cipher[..j + 1] == [c] + rest[..j];
    }
    if IsCfb8(E, iv, plain, cipher) {
      forall j | 0 <= j < |rest|
        ensures rest[j] == Xor(plain[1..][j], E(RegisterAfter(Shift(iv, c), rest[..j]))[0])
      {
        assert cipher[j + 1] == Xor(plain[j + 1], E(RegisterAfter(iv, cipher[..j + 1]))[0]);
      }
    }
    if c == Xor(plain[0], E(iv)[0]) && IsCfb8(E, Shift(iv, c), plain[1..], rest) {
      forall j | 0 <= j < |plain|
        ensures cipher[j] == Xor(plain[j], E(RegisterAfter(iv, cipher[..j]))[0])
      {
        if j > 0 {
          assert rest[j - 1] == Xor(plain[1..][j - 1], E(RegisterAfter(Shift(iv, c), rest[..j - 1]))[0]);
        }
      }
    }
  }

  lemma RegisterNone(reg: Block)
    ensures RegisterAfter(reg, []) == reg
  {
    assert reg + [] == reg;
  }

  /** `Encrypt` is the mode of the standard, and the only function that is. */
  lemma {:induction false} EncryptIsCfb8(E: BlockCipher, iv: Block, plain: seq<bv8>, cipher: seq<bv8>)
    ensures IsCfb8(E, iv, plain, cipher) <==> cipher == Encrypt(E, iv, plain)
    decreases |plain|
  {
    hide Xor, RegisterAfter, Shift;
    if |plain| > 0 && |cipher| == |plain| {
      hide IsCfb8;
      IsCfb8Step(E, iv, plain, cipher);
      EncryptIsCfb8(E, Shift(iv, cipher[0]), plain[1..], cipher[1..]);
      assert cipher == [cipher[0]] + cipher[1..];
      if cipher == Encrypt(E, iv, plain) {
        assert cipher[1..] == Encrypt(E, Shift(iv, cipher[0]), plain[1..]);
      }
    }
  }

  lemma {:induction false} DecryptEncrypt(E: BlockCipher, reg: Block, plain: seq<bv8>)
    ensures Decrypt(E, reg, Encrypt(E, reg, plain)) == plain
    decreases |plain|
  {
    hide Xor, Shift;
    if |plain| > 0 {
      var b := Xor(plain[0], E(reg)[0]);
      var rest := Encrypt(E, Shift(reg, b), plain[1..]);
      XorTwice(plain[0], E(reg)[0]);
      DecryptEncrypt(E, Shift(reg, b), plain[1..]);
      assert Encrypt(E, reg, plain) == [b] + rest;
      assert ([b] + rest)[1..] == rest;
      assert plain == [plain[0]] + plain[1..];
    }
  }

  lemma EncryptStep(E: BlockCipher, reg: Block, p: bv8, rest: seq<bv8>)
    ensures var c := Xor(p, E(reg)[0]); Encrypt(E, reg, [p] + rest) == [c] + Encrypt(E, Shift(reg, c), rest)
  {
    hide Xor, Shift;
    assert ([p] + rest)[1..] == rest;
  }

  lemma {:induction false} EncryptAppend(E: BlockCipher, reg: Block, a: seq<bv8>, b: seq<bv8>)
    ensures Encrypt(E, reg, a + b) == Encrypt(E, reg, a) + Encrypt(E, RegisterAfter(reg, Encrypt(E, reg, a)), b)
    decreases |a|
  {
    hide Xor, Shift, RegisterAfter, Encrypt;
    if |a| == 0 {
      assert a == [] && a + b == b;
      NothingYet(E, reg);
      RegisterNone(reg);
    } else {
      var p, more := a[0], a[1..];
      var c := Xor(p, E(reg)[0]);
      var rest := Encrypt(E, Shift(reg, c), more);
      assert a == [p] + more && a + b == [p] + (more + b);
      EncryptStep(E, reg, p, more);
      EncryptStep(E, reg, p, more + b);
      EncryptAppend(E, Shift(reg, c), more, b);
      RegisterStep(reg, c, rest);
      PrependAppend(c, rest, Encrypt(E, RegisterAfter(Shift(reg, c), rest), b));
    }
  }

  lemma PrependAppend(x: bv8, a: seq<bv8>, b: seq<bv8>)
    ensures [x] + (a + b) == [x] + a + b
  {}

  lemma DecryptStep(E: BlockCipher, reg: Block, c: bv8, rest: seq<bv8>)
    ensures Decrypt(E, reg, [c] + rest) == [Xor(c, E(reg)[0])] + Decrypt(E, Shift(reg, c), rest)
  {
    hide Xor, Shift;
    assert ([c] + rest)[1..] == rest;
  }

  lemma {:induction false} DecryptAppend(E: BlockCipher, reg: Block, a: seq<bv8>, b: seq<bv8>)
    ensures Decrypt(E, reg, a + b) == Decrypt(E, reg, a) + Decrypt(E, RegisterAfter(reg, a), b)
    decreases |a|
  {
    hide Xor, Shift, RegisterAfter, Decrypt;
    if |a| == 0 {
      assert a == [] && a + b == b;
      NothingYet(E, reg);
      RegisterNone(reg);
    } else {
      var c, more := a[0], a[1..];
      assert a == [c] + more && a + b == [c] + (more + b);
      DecryptStep(E, reg, c, more);
      DecryptStep(E, reg, c, more + b);
      DecryptAppend(E, Shift(reg, c), more, b);
      RegisterStep(reg, c, more);
      PrependAppend(Xor(c, E(reg)[0]), Decrypt(E, Shift(reg, c), more),
        Decrypt(E, RegisterAfter(Shift(reg, c), more), b));
    }
  }

  lemma RegisterAppend(reg: Block, a: seq<bv8>, b: seq<bv8>)
    ensures RegisterAfter(RegisterAfter(reg, a), b) == RegisterAfter(reg, a + b)
  {
    assert RegisterAfter(reg, a) + b == (reg + (a + b))[|a|..];
  }

  /** However the stream was cut, a peer that has received a prefix of what was sent, out of an
      encryption of `offered`, decrypts a prefix of `offered`. */
  lemma PeerReadsPrefix(E: BlockCipher, iv: Block, offered: seq<bv8>, sent: seq<bv8>, pending: seq<bv8>,
      received: seq<bv8>)
    requires sent + pending == Encrypt(E, iv, offered) && received <= sent
    ensures Decrypt(E, iv, received) == offered[..|received|]
  {
    var rest := (sent + pending)[|received|..];
    assert sent + pending == received + rest;
    DecryptEncrypt(E, iv, offered);
    DecryptAppend(E, iv, received, rest);
    assert offered == Decrypt(E, iv, received) + Decrypt(E, RegisterAfter(iv, received), rest);
  }

  // ------------------------------------------------------------------ the cipher

  class Cipher {
    const blockCipher: BlockCipher
    const encrypting: bool
    const feedback: array<bv8>

    constructor (blockCipher: BlockCipher, iv: Block, encrypting: bool)
      ensures this.blockCipher == blockCipher && this.encrypting == encrypting
      ensures fresh(feedback) && feedback.Length == BLOCK_LEN && feedback[..] == iv
    {
      this.blockCipher := blockCipher;
      this.encrypting := encrypting;
      feedback := new bv8[BLOCK_LEN](i requires 0 <= i < BLOCK_LEN => iv[i]);
    }

    /** `copy_within(1.., 0)` and the write of the last byte. */
    method PushFeedback(b: bv8)
      requires feedback.Length == BLOCK_LEN
      modifies feedback
      ensures feedback[..] == Shift(old(feedback[..]), b)
    {
      ghost var before := feedback[..];
      for k := 0 to BLOCK_LEN - 1
        invariant forall i :: 0 <= i < k ==> feedback[i] == before[i + 1]
        invariant forall i :: k <= i < BLOCK_LEN ==> feedback[i] == before[i]
      {
        feedback[k] := feedback[k + 1];
      }
      feedback[BLOCK_LEN - 1] := b;
      assert feedback[..] == Shift(before, b);
    }

    /** Transforms `data` in place; encryption feeds back the output, decryption the input. */
    method Transform(data: array<bv8>)
      requires feedback.Length == BLOCK_LEN && data != feedback
      modifies data, feedback
      ensures data[..] == if encrypting then Encrypt(blockCipher, old(feedback[..]), old(data[..]))
                          else Decrypt(blockCipher, old(feedback[..]), old(data[..]))
      ensures feedback[..] == RegisterAfter(old(feedback[..]), if encrypting then data[..] else old(data[..]))
    {
      hide Xor, Shift, RegisterAfter, Encrypt, Decrypt;
      ghost var reg, input := feedback[..], data[..];
      assert input[..0] == [];
      RegisterNone(reg);
      NothingYet(blockCipher, reg);
      for k := 0 to data.Length
        invariant data[k..] == input[k..]
        invariant data[..k] == Transformed(blockCipher, encrypting, reg, input[..k])
        invariant feedback[..] == RegisterAfter(reg, if encrypting then data[..k] else input[..k])
      {
        var block := feedback[..];
        var byte := data[k];
        assert byte == input[k] by { assert data[k..][0] == input[k..][0]; }
        var output := Xor(byte, blockCipher(block)[0]);
        ghost var done := data[..k];
        assert input[..k + 1] == input[..k] + [byte];
        assert input[k + 1..] == data[k..][1..];
        TransformStep(blockCipher, encrypting, reg, input[..k], byte);
        PushFeedback(if encrypting then output else byte);
        data[k] := output;
        assert data[..k + 1] == done + [output];
      }
      assert input[..data.Length] == input && data[..data.Length] == data[..];
    }
  }

  ghost function Transformed(E: BlockCipher, encrypting: bool, reg: Block, data: seq<bv8>): (r: seq<bv8>)
    ensures |r| == |data|
  {
    if encrypting then Encrypt(E, reg, data) else Decrypt(E, reg, data)
  }

  lemma NothingYet(E: BlockCipher, reg: Block)
    ensures Encrypt(E, reg, []) == [] && Decrypt(E, reg, []) == []
  {}

  /** One byte more: the output is the keystream byte xored in, the register takes the ciphertext byte. */
  lemma TransformStep(E: BlockCipher, encrypting: bool, reg: Block, input: seq<bv8>, byte: bv8)
    ensures var done := Transformed(E, encrypting, reg, input);
            var block := RegisterAfter(reg, if encrypting then done else input);
            var output := Xor(byte, E(block)[0]);
            && Transformed(E, encrypting, reg, input + [byte]) == done + [output]
            && RegisterAfter(reg, if encrypting then done + [output] else input + [byte])
               == Shift(block, if encrypting then output else byte)
  {
    hide Xor, Shift, RegisterAfter, Encrypt, Decrypt;
    var done := Transformed(E, encrypting, reg, input);
    var block := RegisterAfter(reg, if encrypting then done else input);
    var output := Xor(byte, E(block)[0]);
    if encrypting {
      EncryptAppend(E, reg, input, [byte]);
      EncryptByte(E, block, byte);
      RegisterAppend(reg, done, [output]);
    } else {
      DecryptAppend(E, reg, input, [byte]);
      DecryptByte(E, block, byte);
      RegisterAppend(reg, input, [byte]);
    }
  }

  lemma EncryptByte(E: BlockCipher, reg: Block, b: bv8)
    ensures Encrypt(E, reg, [b]) == [Xor(b, E(reg)[0])]
    ensures RegisterAfter(reg, [b]) == Shift(reg, b)
    ensures RegisterAfter(reg, [Xor(b, E(reg)[0])]) == Shift(reg, Xor(b, E(reg)[0]))
  {
    assert [b][1..] == [];
  }

  lemma DecryptByte(E: BlockCipher, reg: Block, b: bv8)
    ensures Decrypt(E, reg, [b]) == [Xor(b, E(reg)[0])]
    ensures RegisterAfter(reg, [b]) == Shift(reg, b)
  {
    assert [b][1..] == [];
  }

  // ------------------------------------------------------------------ the stream

  /** What a poll of the socket can answer. */
  datatype Poll = Pending | Failed | Ready(n: nat)

  // ------------------------------------------------------------- the socket

  /** The next answer of a socket that follows a script, and the script after it. */
  function Answer(script: seq<Poll>): Poll { if |script| == 0 then Pending else script[0] }

  function Later(script: seq<Poll>): seq<Poll> { if |script| == 0 then [] else script[1..] }

  /** The answer to an offer of `size` bytes: never more than were offered. */
  function Accepted(script: seq<Poll>, size: nat): Poll {
    match Answer(script)
    case Ready(n) => Ready(if n <= size then n else size)
    case other => other
  }

  function Least(a: nat, b: nat): nat { if a <= b then a else b }

  /** How many of `ready` waiting bytes a read with room for `cap` is handed. */
  function Handed(script: seq<Poll>, cap: nat, ready: nat): (n: nat)
    ensures n <= cap && n <= ready
  {
    match Answer(script)
    case Ready(n) => var most := if cap <= ready then cap else ready; if n <= most then n else most
    case _ => 0
  }

  /** What flushing does: how many bytes the socket took, its script afterwards, and the answer. */
  datatype Flush = Flush(taken: int, rest: seq<Poll>, answer: Poll)

  function Sooner(n: int, f: Flush): Flush { f.(taken := n + f.taken) }

  function Flushed(script: seq<Poll>, pending: nat): (f: Flush)
    ensures 0 <= f.taken <= pending
    decreases pending
  {
    if pending == 0 then Flush(0, script, Ready(0))
    else
      match Accepted(script, pending)
      case Ready(n) =>
        if n == 0 then Flush(0, Later(script), Ready(0)) else Sooner(n, Flushed(Later(script), pending - n))
      case other => Flush(0, Later(script), other)
  }

  lemma FlushedNothing(script: seq<Poll>)
    ensures Flushed(script, 0) == Flush(0, script, Ready(0))
  {}

  lemma FlushStep(script: seq<Poll>, pending: nat)
    requires pending > 0
    ensures match Accepted(script, pending)
            case Ready(n) =>
              if n == 0 then Flushed(script, pending) == Flush(0, Later(script), Ready(0))
              else n <= pending && Flushed(script, pending) == Sooner(n, Flushed(Later(script), pending - n))
            case other => Flushed(script, pending) == Flush(0, Later(script), other)
  {}

  function FlushAnswer(script: seq<Poll>, pending: nat): Poll {
    var f := Flushed(script, pending);
    if f.answer.Ready? then Answer(f.rest) else f.answer
  }

  lemma AnswerFollowsScript(script: seq<Poll>, pending: nat)
    requires pending > 0 && Accepted(script, pending).Ready?
    ensures |script| > 0 && (Accepted(script, pending).n == 0 <==> script[0] == Ready(0))
  {}

  /** When flushing is reported ready, everything is on the wire exactly when the last answer it used was not an
      acceptance of nothing. */
  lemma {:induction false} ReadyIsFlushedIff(script: seq<Poll>, pending: nat)
    requires Flushed(script, pending).answer.Ready?
    ensures var f := Flushed(script, pending);
      && |f.rest| <= |script| && (pending > 0 ==> |f.rest| < |script|)
      && (f.taken == pending <==> pending == 0 || script[|script| - |f.rest| - 1] != Ready(0))
    decreases pending
  {
    hide Flushed, Accepted;
    FlushedNothing(script);
    if pending > 0 {
      FlushStep(script, pending);
      AnswerFollowsScript(script, pending);
      var n := Accepted(script, pending).n;
      if n > 0 {
        FlushedNothing(Later(script));
        ReadyIsFlushedIff(Later(script), pending - n);
      }
    }
  }

  /** A socket that accepts nothing once: the flush is reported ready with a byte still pending. */
  lemma ReadyIsNotFlushed()
    ensures FlushAnswer([Ready(0), Ready(0)], 1) == Ready(0) && Flushed([Ready(0), Ready(0)], 1).taken == 0
  {
    assert Later([Ready(0), Ready(0)]) == [Ready(0)];
  }

  /** A socket that answers write polls by a script, accepting any part of what it is offered, and
      delivers inbound bytes in pieces of any size. */
  class Socket {
    var sent: seq<bv8>
    var inbound: seq<bv8>
    var script: seq<Poll>

    constructor (inbound: seq<bv8>, script: seq<Poll>)
      ensures sent == [] && this.inbound == inbound && this.script == script
    {
      sent, this.inbound, this.script := [], inbound, script;
    }

    method NextPoll() returns (poll: Poll)
      modifies this`script
      ensures poll == Answer(old(script)) && script == Later(old(script))
    {
      poll := Pending;
      if |script| > 0 {
        poll, script := script[0], script[1..];
      }
    }

    method PollWrite(buf: seq<bv8>) returns (poll: Poll)
      modifies this`sent, this`script
      ensures script == Later(old(script)) && poll == Accepted(old(script), |buf|)
      ensures poll.Ready? ==> poll.n <= |buf| && sent == old(sent) + buf[..poll.n]
      ensures !poll.Ready? ==> sent == old(sent)
    {
      poll := NextPoll();
      if poll.Ready? {
        poll := Ready(if poll.n <= |buf| then poll.n else |buf|);
        sent := sent + buf[..poll.n];
      }
    }

    /** The socket's own flush moves no bytes of the stream. */
    method PollFlush() returns (poll: Poll)
      modifies this`script
      ensures poll == Answer(old(script)) && script == Later(old(script))
    {
      poll := NextPoll();
    }

    method PollRead(cap: nat) returns (poll: Poll, raw: seq<bv8>)
      modifies this`inbound, this`script
      ensures poll == Answer(old(script)) && script == Later(old(script))
      ensures |raw| == Handed(old(script), cap, |old(inbound)|) && old(inbound) == raw + inbound
    {
      raw := [];
      poll := NextPoll();
      if poll.Ready? {
        var most := if cap <= |inbound| then cap else |inbound|;
        var n := if poll.n <= most then poll.n else most;
        raw, inbound := inbound[..n], inbound[n..];
      }
    }
  }

  class EncryptedStream {
    const blockCipher: BlockCipher
    const iv: Block
    const inner: Socket
    const encrypt: Cipher
    const decrypt: Cipher
    var readLeftover: seq<bv8>
    var readPos: nat
    var writePending: seq<bv8>
    ghost var offered: seq<bv8> // everything the caller handed to `poll_write`
    ghost var received: seq<bv8> // everything taken from the socket
    ghost var delivered: seq<bv8> // everything handed to the reader

    ghost predicate Valid()
      reads this, inner, encrypt, decrypt, encrypt.feedback, decrypt.feedback
    {
      && encrypt.encrypting && encrypt.blockCipher == blockCipher
      && !decrypt.encrypting && decrypt.blockCipher == blockCipher
      && encrypt.feedback.Length == BLOCK_LEN && decrypt.feedback.Length == BLOCK_LEN
      && encrypt.feedback != decrypt.feedback
      && inner.sent + writePending == Encrypt(blockCipher, iv, offered)
      && encrypt.feedback[..] == RegisterAfter(iv, Encrypt(blockCipher, iv, offered))
      && readPos <= |readLeftover|
      && delivered + readLeftover[readPos..] == Decrypt(blockCipher, iv, received)
      && decrypt.feedback[..] == RegisterAfter(iv, received)
    }

    constructor (socket: Socket, blockCipher: BlockCipher, keyAndIv: Block)
      requires socket.sent == []
      ensures Valid() && inner == socket && this.blockCipher == blockCipher && iv == keyAndIv
      ensures offered == [] && received == [] && delivered == []
      ensures fresh(encrypt.feedback) && fresh(decrypt.feedback)
    {
      inner := socket;
      this.blockCipher, iv := blockCipher, keyAndIv;
      var e := new Cipher(blockCipher, keyAndIv, true);
      var d := new Cipher(blockCipher, keyAndIv, false);
      encrypt, decrypt := e, d;
      readLeftover, readPos, writePending := [], 0, [];
      offered, received, delivered := [], [], [];
      new;
      assert keyAndIv + [] == keyAndIv;
    }

    /** `flush_pending`: every accepted part moves from `writePending` to the wire, in order, until nothing
        is left or the socket accepts no more. */
    method FlushPending() returns (poll: Poll)
      modifies this`writePending, inner`sent, inner`script
      ensures inner.sent + writePending == old(inner.sent + writePending)
      ensures old(inner.sent) <= inner.sent
      ensures Flushed(old(inner.script), |old(writePending)|)
           == Flush(|inner.sent| - |old(inner.sent)|, inner.script, poll)
    {
      hide Flushed, Accepted, Later;
      ghost var all := inner.sent + writePending;
      while |writePending| > 0
        invariant inner.sent + writePending == all
        invariant old(inner.sent) <= inner.sent
        invariant Flushed(old(inner.script), |old(writePending)|)
               == Sooner(|inner.sent| - |old(inner.sent)|, Flushed(inner.script, |writePending|))
        decreases |writePending|
      {
        FlushStep(inner.script, |writePending|);
        var step := inner.PollWrite(writePending);
        match step {
          case Pending => return Pending;
          case Failed => return Failed;
          case Ready(n) =>
            assert writePending == writePending[..n] + writePending[n..];
            if n == 0 {
              return Ready(0);
            }
            writePending := writePending[n..];
        }
      }
      FlushedNothing(inner.script);
      poll := Ready(0);
    }

    /** `poll_write`: whatever the socket does, sent and pending bytes together are the encryption of
        all plaintext offered so far; the caller sees its whole slice accepted unless the socket failed. */
    method PollWrite(buf: seq<bv8>) returns (poll: Poll)
      requires Valid()
      modifies this`writePending, this`offered, inner`sent, inner`script, encrypt.feedback
      ensures Valid() && offered == old(offered) + buf
      ensures poll == if Flushed(old(inner.script), |old(writePending)| + |buf|).answer.Failed? then Failed
                      else Ready(|buf|)
      ensures old(inner.sent) <= inner.sent
    {
      hide Encrypt, Decrypt, RegisterAfter;
      var encrypted := new bv8[|buf|](i requires 0 <= i < |buf| => buf[i]);
      assert encrypted[..] == buf;
      ghost var before := Encrypt(blockCipher, iv, offered);
      encrypt.Transform(encrypted);
      EncryptAppend(blockCipher, iv, offered, buf);
      RegisterAppend(iv, before, encrypted[..]);
      writePending := writePending + encrypted[..];
      offered := offered + buf;
      assert inner.sent + writePending == before + encrypted[..];
      poll := FlushPending();
      if poll != Failed {
        poll := Ready(|buf|);
      }
    }

    /** `poll_flush`: flushes what is pending, then the socket. The answer is the socket's own, and says
        nothing about what is still pending: see `ReadyIsFlushedIff`. */
    method PollFlush() returns (poll: Poll)
      requires Valid()
      modifies this`writePending, inner`sent, inner`script
      ensures Valid() && old(inner.sent) <= inner.sent && offered == old(offered)
      ensures poll == FlushAnswer(old(inner.script), |old(writePending)|)
      ensures |writePending| == |old(writePending)| - Flushed(old(inner.script), |old(writePending)|).taken
    {
      poll := FlushPending();
      if poll.Ready? {
        poll := inner.PollFlush();
      }
    }

    /** `poll_read`: hands over at most `cap` decrypted bytes. */
    method PollRead(cap: nat) returns (poll: Poll, bytes: seq<bv8>)
      requires Valid()
      modifies this`readLeftover, this`readPos, this`received, this`delivered, inner`inbound, inner`script,
        decrypt.feedback
      ensures Valid() && |bytes| <= cap && delivered == old(delivered) + bytes
      ensures received + inner.inbound == old(received + inner.inbound)
      ensures old(readPos < |readLeftover|) ==>
        poll == Ready(|bytes|) && |bytes| == Least(cap, old(|readLeftover| - readPos)) && received == old(received)
      ensures old(readPos == |readLeftover|) && cap == 0 ==> poll == Ready(0) && received == old(received)
      ensures old(readPos == |readLeftover|) && cap > 0 ==>
        && poll == Answer(old(inner.script))
        && |bytes| == Handed(old(inner.script), cap, |old(inner.inbound)|) == |received| - |old(received)|
    {
      hide Encrypt, Decrypt, RegisterAfter;
      if readPos < |readLeftover| {
        bytes := HandLeftover(cap);
        return Ready(|bytes|), bytes;
      }
      if cap == 0 {
        return Ready(0), [];
      }
      var raw;
      poll, raw := inner.PollRead(cap);
      bytes := [];
      if poll.Ready? && |raw| > 0 {
        bytes := Accept(raw);
      } else {
        assert received + [] == received;
      }
    }

    /** What was decrypted before and not yet taken goes first. */
    method HandLeftover(cap: nat) returns (bytes: seq<bv8>)
      requires Valid() && readPos < |readLeftover|
      modifies this`readLeftover, this`readPos, this`delivered
      ensures Valid() && delivered == old(delivered) + bytes
      ensures |bytes| == Least(cap, old(|readLeftover| - readPos))
    {
      hide Encrypt, Decrypt, RegisterAfter;
      var left := |readLeftover| - readPos;
      var n := if left <= cap then left else cap;
      bytes := readLeftover[readPos..readPos + n];
      assert readLeftover[readPos..] == bytes + readLeftover[readPos + n..];
      delivered := delivered + bytes;
      readPos := readPos + n;
      if readPos == |readLeftover| {
        readLeftover, readPos := [], 0;
      }
    }

    /** Decrypts what the socket handed over, in place. */
    method Accept(raw: seq<bv8>) returns (bytes: seq<bv8>)
      requires Valid() && readPos == |readLeftover|
      modifies this`received, this`delivered, decrypt.feedback
      ensures Valid() && |bytes| == |raw| && received == old(received) + raw && delivered == old(delivered) + bytes
    {
      hide Encrypt, Decrypt, RegisterAfter;
      var slice := new bv8[|raw|](i requires 0 <= i < |raw| => raw[i]);
      assert slice[..] == raw;
      decrypt.Transform(slice);
      bytes := slice[..];
      DecryptAppend(blockCipher, iv, received, raw);
      RegisterAppend(iv, received, raw);
      received := received + raw;
      delivered := delivered + bytes;
    }
  }

  /** The two ends of a connection: whatever the schedules of partial writes and reads, a reader that has
      taken a prefix of what the writer sent has delivered a prefix of what the writer was offered. */
  lemma ReaderDeliversPrefix(writer: EncryptedStream, reader: EncryptedStream)
    requires writer.Valid() && reader.Valid()
    requires reader.blockCipher == writer.blockCipher && reader.iv == writer.iv
    requires reader.received <= writer.inner.sent
    ensures reader.delivered <= writer.offered
  {
    hide Encrypt, Decrypt, RegisterAfter;
    var E, iv := writer.blockCipher, writer.iv;
    PeerReadsPrefix(E, iv, writer.offered, writer.inner.sent, writer.writePending, reader.received);
    assert reader.delivered <= Decrypt(E, iv, reader.received);
  }
}
