/**
 The sealed Terraform plan (scripts/immutable_plan_snapshot.py:40-213, scripts/seal_terraform_plan.py:55-220,
 scripts/apply_terraform_plan.py:56-281): the plan is copied once, and everything that is hashed,
 policy-checked, encrypted and applied is that copy, although another process replaces the workspace
 plan at any moment and child processes move the descriptor's shared offset.
 */
module SealedPlan {
  import opened Options

  type Byte = n: int | 0 <= n < 256
  type Bytes = seq<Byte>

  const MAX_SAVED_PLAN_BYTES := 512 * 1024 * 1024
  const MAX_ENCRYPTED_PLAN_BYTES := MAX_SAVED_PLAN_BYTES + 1024 * 1024
  const COPY_CHUNK_BYTES := 1024 * 1024
  const MIN_PASSPHRASE := 32

  /** The digest and the cipher. A salt makes encryption of the same bytes differ. */
  datatype Crypto = Crypto(digest: Bytes -> string, encrypt: (string, nat, Bytes) -> Bytes,
                           decrypt: (string, Bytes) -> Option<Bytes>)
  {
    ghost predicate Sound() {
      && (forall a, b :: digest(a) == digest(b) ==> a == b)
      && (forall p, salt, m :: decrypt(p, encrypt(p, salt, m)) == Some(m))
    }
  }

  /**
   What stands at a path: a regular file with its size as fstat reports it and the bytes reads will
   return; a symbolic link, which is not followed; a directory, which opens but cannot be unlinked;
   anything else that opens.
   */
  datatype File = Regular(size: int, stream: Bytes) | Link | Directory | Special

  type Path = Option<File>

  predicate IsDirectory(path: Path) { path == Some(Directory) }

  /** unlink: a directory stays, and the call fails. */
  function Unlinked(path: Path): Path { if IsDirectory(path) then path else None }

  // ---- The snapshot -------------------------------------------------------------------------

  datatype Copy = Copied(digest: string) | TooLarge | Empty

  /** A new private file or memfd, written from its start. */
  class Destination {
    var content: Bytes

    constructor ()
      ensures content == []
    {
      content := [];
    }

    method Write(chunk: Bytes)
      modifies this
      ensures content == old(content) + chunk
    {
      content := content + chunk;
    }
  }

  /** Copy a stream chunk by chunk; reads may be short. Never more than the limit reaches the destination. */
  method CopyPlan(crypto: Crypto, stream: Bytes, destination: Destination, maxBytes: nat, chunkBytes: nat)
    returns (copy: Copy)
    requires maxBytes > 0 && chunkBytes > 0 && destination.content == []
    modifies destination
    ensures copy == if stream == [] then Empty else if |stream| > maxBytes then TooLarge
                    else Copied(crypto.digest(stream))
    ensures destination.content <= stream && |destination.content| <= maxBytes
    ensures copy.Copied? ==> destination.content == stream
    ensures copy.TooLarge? ==> |destination.content| + chunkBytes > maxBytes
  {
    var copied := 0;
    while copied < |stream|
      invariant 0 <= copied <= |stream| && copied <= maxBytes
      invariant destination.content == stream[..copied]
    {
      var available := |stream| - copied;
      var read: int := *;
      if read <= 0 || read > chunkBytes { read := chunkBytes; }
      if read > available { read := available; }
      assert 0 < read <= |stream| - copied;
      var chunk := stream[copied..copied + read];
      copied := copied + |chunk|;
      if copied > maxBytes {
        return TooLarge;
      }
      destination.Write(chunk);
      assert destination.content == stream[..copied];
    }
    assert stream[..|stream|] == stream;
    copy := if copied == 0 then Empty else Copied(crypto.digest(destination.content));
  }

  /** A read-only descriptor of sealed bytes; its offset is shared with every child that inherits it. */
  class Descriptor {
    const content: Bytes
    var offset: nat

    constructor (content: Bytes)
      ensures this.content == content && offset == 0
    {
      this.content := content;
      offset := 0;
    }

    method Rewind()
      modifies this
      ensures offset == 0
    {
      offset := 0;
    }

    /** A child reads to the end from wherever the offset is, and leaves it anywhere. */
    method ReadByChild() returns (bytes: Bytes)
      modifies this
      ensures bytes == if old(offset) <= |content| then content[old(offset)..] else []
    {
      bytes := if offset <= |content| then content[offset..] else [];
      offset := *;
    }
  }

  datatype Result<+T> = Ok(value: T) | Error

  // ---- Sealing ------------------------------------------------------------------------------

  /** The path after another process put each of `moves` there in turn. */
  function Latest(path: Path, moves: seq<Path>): Path {
    if moves == [] then path else moves[|moves| - 1]
  }

  /** What the other process does to the plan path, interval by interval of one seal. */
  datatype Schedule = Schedule(beforeOpen: seq<Path>, beforeRemoval: seq<Path>, duringPolicy: seq<Path>,
                               duringEncryption: seq<Path>, beforeEnd: seq<Path>)

  /** Which of the tools and writes succeed. */
  datatype Tools = Tools(policyCompletes: bool, encrypts: bool, writesArtifact: bool, writesChecksum: bool)

  class Workspace {
    var plan: Path
    var encrypted: Path
    var checksum: Option<string>

    constructor (plan: Path, encrypted: Path, checksum: Option<string>)
      ensures this.plan == plan && this.encrypted == encrypted && this.checksum == checksum
    {
      this.plan, this.encrypted, this.checksum := plan, encrypted, checksum;
    }

    /** Another process replaces, removes or recreates the plan path. */
    method ReplacePlan(moves: seq<Path>)
      modifies this`plan
      ensures plan == Latest(old(plan), moves)
    {
      for i := 0 to |moves|
        invariant plan == Latest(old(plan), moves[..i])
      {
        plan := moves[i];
      }
      assert moves[..|moves|] == moves;
    }

    method RemovePlan() returns (ok: bool)
      modifies this`plan
      ensures plan == Unlinked(old(plan)) && (ok <==> plan.None?)
    {
      ok := !IsDirectory(plan);
      if ok { plan := None; }
    }
  }

  /** A path whose bytes can be snapshotted: a regular file, neither empty nor too large, by size and by content. */
  predicate Snapshottable(path: Path) {
    && path.Some? && path.value.Regular? && 0 < path.value.size <= MAX_SAVED_PLAN_BYTES
    && 0 < |path.value.stream| <= MAX_SAVED_PLAN_BYTES
  }

  /** Open the plan path once and snapshot what stands there at that moment. */
  method SnapshotPlan(ws: Workspace, crypto: Crypto, schedule: Schedule)
    returns (snapshot: Result<(Descriptor, string)>)
    modifies ws`plan
    ensures var source := Latest(old(ws.plan), schedule.beforeOpen);
            && ws.plan == Latest(source, if Snapshottable(source) then schedule.beforeRemoval else [])
            && (snapshot.Ok? <==> Snapshottable(source))
            && (snapshot.Ok? ==>
                  && fresh(snapshot.value.0) && snapshot.value.0.content == source.value.stream
                  && snapshot.value.1 == crypto.digest(source.value.stream))
  {
    ws.ReplacePlan(schedule.beforeOpen);
    var path := ws.plan;
    if path.None? || !path.value.Regular? || path.value.size <= 0 || path.value.size > MAX_SAVED_PLAN_BYTES {
      return Error;
    }
    var destination := new Destination();
    var copy := CopyPlan(crypto, path.value.stream, destination, MAX_SAVED_PLAN_BYTES, COPY_CHUNK_BYTES);
    if !copy.Copied? {
      return Error;
    }
    ws.ReplacePlan(schedule.beforeRemoval);
    var descriptor := new Descriptor(destination.content);
    snapshot := Ok((descriptor, copy.digest));
  }

  /** terraform show piped into the policy script: passes only if both succeed on what the child read. */
  method EnforcePolicy(descriptor: Descriptor, policy: Bytes -> bool, completes: bool) returns (passed: bool)
    modifies descriptor
    ensures old(descriptor.offset) == 0 ==> (passed <==> completes && policy(descriptor.content))
  {
    var shown := descriptor.ReadByChild();
    passed := completes && policy(shown);
  }

  /** openssl enc reading the inherited descriptor. */
  method EncryptSnapshot(descriptor: Descriptor, crypto: Crypto, passphrase: string, salt: nat, completes: bool)
    returns (cipher: Option<Bytes>)
    modifies descriptor
    ensures old(descriptor.offset) == 0 ==>
              cipher == if completes then Some(crypto.encrypt(passphrase, salt, descriptor.content)) else None
  {
    var read := descriptor.ReadByChild();
    cipher := if completes then Some(crypto.encrypt(passphrase, salt, read)) else None;
  }

  /** When the body of seal succeeds: `source` is what stood at the plan path when it was opened. */
  predicate Sealable(source: Path, schedule: Schedule, tools: Tools, policy: Bytes -> bool) {
    && Snapshottable(source) && policy(source.value.stream)
    && !IsDirectory(Latest(source, schedule.beforeRemoval))
    && tools.policyCompletes && tools.encrypts && tools.writesArtifact && tools.writesChecksum
  }

  /** The two artifacts describe `bytes`. */
  ghost predicate Describes(ws: Workspace, crypto: Crypto, passphrase: string, salt: nat, bytes: Bytes)
    reads ws
  {
    var cipher := crypto.encrypt(passphrase, salt, bytes);
    ws.encrypted == Some(Regular(|cipher|, cipher)) && ws.checksum == Some(crypto.digest(bytes))
  }

  /** No directory ever stands at the plan path during the seal. */
  ghost predicate NoDirectory(plan: Path, schedule: Schedule) {
    var moves := schedule.beforeOpen + schedule.beforeRemoval + schedule.duringPolicy + schedule.duringEncryption
                 + schedule.beforeEnd;
    !IsDirectory(plan) && forall m :: m in moves ==> !IsDirectory(m)
  }

  /**
   Seal a plan. It succeeds exactly when its body does and the plan can be removed at the end; then digest,
   policy verdict and ciphertext all belong to the bytes that stood at the plan path when it was opened. When
   the body fails no artifact is left. The plan is gone in either case unless a directory stands in
   its place; then seal fails, and leaves its artifacts if its body had succeeded.
   */
  method Seal(ws: Workspace, crypto: Crypto, policy: Bytes -> bool, passphrase: string, salt: nat, schedule: Schedule,
              tools: Tools)
    returns (result: Result<string>)
    modifies ws
    ensures |passphrase| < MIN_PASSPHRASE || IsDirectory(old(ws.encrypted)) ==>
              && result.Error? && ws.plan == old(ws.plan) && ws.encrypted == old(ws.encrypted)
              && ws.checksum == old(ws.checksum)
    ensures |passphrase| >= MIN_PASSPHRASE && !IsDirectory(old(ws.encrypted)) ==>
              var source := Latest(old(ws.plan), schedule.beforeOpen);
              && (result.Ok? <==> Sealable(source, schedule, tools, policy) && ws.plan.None?)
              && (if Sealable(source, schedule, tools, policy)
                  then Describes(ws, crypto, passphrase, salt, source.value.stream)
                  else ws.encrypted.None? && ws.checksum.None?)
              && (result.Ok? ==> result.value == crypto.digest(source.value.stream))
              && (ws.plan.None? || IsDirectory(ws.plan))
              && (Sealable(source, schedule, tools, policy) ==>
                    ws.plan == Unlinked(Latest(None, schedule.duringPolicy + schedule.duringEncryption
                                                     + schedule.beforeEnd)))
              && (schedule.beforeEnd != [] ==> ws.plan == Unlinked(Latest(None, schedule.beforeEnd)))
              && (NoDirectory(old(ws.plan), schedule) ==> ws.plan.None?)
  {
    if |passphrase| < MIN_PASSPHRASE || IsDirectory(ws.encrypted) {
      return Error;
    }
    ws.encrypted, ws.checksum := None, None;
    result := SealSnapshot(ws, crypto, policy, passphrase, salt, schedule, tools);
    if result.Error? {
      ws.encrypted, ws.checksum := None, None;
    }
    ws.ReplacePlan(schedule.beforeEnd);
    var removed := ws.RemovePlan();
    if !removed {
      result := Error;
    }
  }

  /** The body of seal's try block. */
  method SealSnapshot(ws: Workspace, crypto: Crypto, policy: Bytes -> bool, passphrase: string, salt: nat,
                      schedule: Schedule, tools: Tools)
    returns (result: Result<string>)
    modifies ws
    ensures var source := Latest(old(ws.plan), schedule.beforeOpen);
            && (result.Ok? <==> Sealable(source, schedule, tools, policy))
            && (result.Ok? ==>
                  && result.value == crypto.digest(source.value.stream)
                  && Describes(ws, crypto, passphrase, salt, source.value.stream)
                  && ws.plan == Latest(None, schedule.duringPolicy + schedule.duringEncryption))
    ensures NoDirectory(old(ws.plan), schedule) ==> !IsDirectory(ws.plan)
  {
    var snapshot := SnapshotPlan(ws, crypto, schedule);
    if snapshot.Error? {
      return Error;
    }
    var (descriptor, digest) := snapshot.value;
    var removed := ws.RemovePlan();
    if !removed {
      return Error;
    }
    ws.ReplacePlan(schedule.duringPolicy);
    descriptor.Rewind();
    var passed := EnforcePolicy(descriptor, policy, tools.policyCompletes);
    if !passed {
      return Error;
    }
    ws.ReplacePlan(schedule.duringEncryption);
    descriptor.Rewind();
    var cipher := EncryptSnapshot(descriptor, crypto, passphrase, salt, tools.encrypts);
    if cipher.None? || !tools.writesArtifact {
      return Error;
    }
    ws.encrypted := Some(Regular(|cipher.value|, cipher.value));
    if !tools.writesChecksum {
      return Error;
    }
    ws.checksum := Some(digest);
    result := Ok(digest);
  }

  /** An error that leaves both artifacts: a directory appears at the plan path before the last removal. */
  method DirectoryLeavesArtifacts(crypto: Crypto, bytes: Bytes, passphrase: string, salt: nat)
    returns (ws: Workspace, result: Result<string>)
    requires 0 < |bytes| <= MAX_SAVED_PLAN_BYTES && |passphrase| >= MIN_PASSPHRASE
    ensures result.Error? && ws.encrypted.Some? && ws.checksum.Some? && IsDirectory(ws.plan)
  {
    ws := new Workspace(Some(Regular(|bytes|, bytes)), None, None);
    var schedule := Schedule([], [], [], [], [Some(Directory)]);
    result := Seal(ws, crypto, _ => true, passphrase, salt, schedule, Tools(true, true, true, true));
  }

  // ---- Applying -----------------------------------------------------------------------------

  predicate IsSha256(digest: string) {
    |digest| == 64 && forall i :: 0 <= i < 64 ==> '0' <= digest[i] <= '9' || 'a' <= digest[i] <= 'f'
  }

  /** The digests admitted are 256 bits written in sixteens, with small letters. */
  lemma DigestsAdmitted(digest: string)
    ensures IsSha256(digest) <==> |digest| == 64 && forall c :: c in digest ==> c in "0123456789abcdef"
  {
    forall c: char ensures c in "0123456789abcdef" <==> '0' <= c <= '9' || 'a' <= c <= 'f' { HexDigit(c); }
    if IsSha256(digest) {
      forall c | c in digest ensures c in "0123456789abcdef" {
        var i :| 0 <= i < |digest| && digest[i] == c;
      }
    } else if |digest| == 64 {
      var i :| 0 <= i < 64 && !('0' <= digest[i] <= '9' || 'a' <= digest[i] <= 'f');
      assert digest[i] in digest && digest[i] !in "0123456789abcdef";
    }
  }

  lemma HexDigit(c: char)
    ensures c in "0123456789abcdef" <==> '0' <= c <= '9' || 'a' <= c <= 'f'
  {
    var digits := "0123456789abcdef";
    if '0' <= c <= '9' {
      assert digits[c as int - '0' as int] == c;
    } else if 'a' <= c <= 'f' {
      assert digits[c as int - 'a' as int + 10] == c;
    }
  }

  /**
   openssl enc -d: what it writes. When it exits with zero that is the plaintext; when it fails it is
   anything.
   */
  method Decrypt(crypto: Crypto, passphrase: string, artifact: Bytes, completes: bool)
    returns (output: Bytes, succeeds: bool)
    ensures succeeds <==> completes && crypto.decrypt(passphrase, artifact).Some?
    ensures succeeds ==> crypto.decrypt(passphrase, artifact) == Some(output)
  {
    var plain := crypto.decrypt(passphrase, artifact);
    succeeds := completes && plain.Some?;
    if succeeds {
      output := plain.value;
    } else {
      output := *;
    }
  }

  /** An artifact that apply accepts for a digest: it decrypts to a plan of allowed size with that digest. */
  predicate Approved(crypto: Crypto, passphrase: string, artifact: Path, expected: string) {
    && artifact.Some? && artifact.value.Regular? && 0 < artifact.value.size <= MAX_ENCRYPTED_PLAN_BYTES
    && var plain := crypto.decrypt(passphrase, artifact.value.stream);
    && plain.Some? && 0 < |plain.value| <= MAX_SAVED_PLAN_BYTES && crypto.digest(plain.value) == expected
  }

  /**
   Decrypt, snapshot, compare, apply. Terraform runs exactly when the artifact is approved (and
   decryption completes); it reads the descriptor at offset zero, so it is given the whole snapshot.
   Once opened the artifact is removed; a link is not even opened and stays, as a directory does.
   */
  method Apply(ws: Workspace, crypto: Crypto, expected: string, passphrase: string,
               decryptCompletes: bool, terraformExitsWithZero: bool)
    returns (result: Result<()>, applied: Option<Bytes>)
    modifies ws`encrypted
    ensures applied.Some? <==> IsSha256(expected) && |passphrase| >= MIN_PASSPHRASE && decryptCompletes
                               && Approved(crypto, passphrase, old(ws.encrypted), expected)
    ensures applied.Some? ==> applied == crypto.decrypt(passphrase, old(ws.encrypted).value.stream)
    ensures result.Ok? <==> applied.Some? && terraformExitsWithZero
    ensures ws.encrypted == if !IsSha256(expected) || |passphrase| < MIN_PASSPHRASE || old(ws.encrypted) == Some(Link)
                            then old(ws.encrypted) else Unlinked(old(ws.encrypted))
  {
    applied := None;
    if !IsSha256(expected) || |passphrase| < MIN_PASSPHRASE {
      return Error, applied;
    }
    var artifact := ws.encrypted;
    if artifact.None? || artifact.value.Link? {
      return Error, applied;
    }
    ws.encrypted := Unlinked(artifact);
    if !artifact.value.Regular? || artifact.value.size <= 0 || artifact.value.size > MAX_ENCRYPTED_PLAN_BYTES {
      return Error, applied;
    }
    var output, succeeds := Decrypt(crypto, passphrase, artifact.value.stream, decryptCompletes);
    var destination := new Destination();
    var copy := CopyPlan(crypto, output, destination, MAX_SAVED_PLAN_BYTES, COPY_CHUNK_BYTES);
    if !copy.Copied? || !succeeds || copy.digest != expected {
      return Error, applied;
    }
    var descriptor := new Descriptor(destination.content);
    var bytes := descriptor.ReadByChild();
    applied := Some(bytes);
    result := if terraformExitsWithZero then Ok(()) else Error;
  }

  /**
   From seal to apply, with anything put in the artifact's place in between: whatever is applied under the
   digest that seal returned is byte for byte what stood at the plan path when seal opened it, and passed
   the policy; and the artifact, if left alone, is approved again and applied.
   */
  method SealThenApply(ws: Workspace, crypto: Crypto, policy: Bytes -> bool, passphrase: string, salt: nat,
                       schedule: Schedule, tools: Tools, substitute: Option<Path>, decryptCompletes: bool,
                       terraformExitsWithZero: bool)
    returns (digest: Result<string>, applied: Option<Bytes>)
    requires crypto.Sound()
    modifies ws
    ensures var source := Latest(old(ws.plan), schedule.beforeOpen);
            && (digest.Ok? ==> Snapshottable(source))
            && (applied.Some? ==> digest.Ok? && applied.value == source.value.stream && policy(applied.value))
            && (digest.Ok? && IsSha256(digest.value) && substitute.None? && decryptCompletes
                && 0 < |crypto.encrypt(passphrase, salt, source.value.stream)| <= MAX_ENCRYPTED_PLAN_BYTES ==>
                  applied == Some(source.value.stream))
  {
    digest := Seal(ws, crypto, policy, passphrase, salt, schedule, tools);
    applied := None;
    if digest.Ok? {
      if substitute.Some? { ws.encrypted := substitute.value; }
      var _, bytes := Apply(ws, crypto, digest.value, passphrase, decryptCompletes, terraformExitsWithZero);
      applied := bytes;
    }
  }
}
