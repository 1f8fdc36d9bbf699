/** internal/runtimebundle/bundle.go lines 28-109 and 136-149, and the loop of
    scripts/release-runtime-payloads.py lines 52-61: the steps around the bundle's bytes. */
module BundleBuild {
  import opened Outcomes
  import opened Bytes
  import opened Bundle

  /** "digest:" */
  const TITLE: Bytes := [100, 105, 103, 101, 115, 116, 58]

  const CHUNK: nat := 1048576

  /** The temporary file and the running digest, which one writer feeds with the same blocks. */
  class Sink {
    var written: Bytes
    var hashed: Bytes
    /** Some call failed. */
    ghost var faulted: bool

    constructor ()
      ensures written == [] && hashed == [] && !faulted
    {
      written, hashed, faulted := [], [], false;
    }

    method Write(block: Bytes) returns (ok: bool)
      modifies this
      ensures ok ==> written == old(written) + block && hashed == old(hashed) + block
      ensures faulted == (old(faulted) || !ok)
    {
      ok := *;
      if ok {
        written, hashed := written + block, hashed + block;
      } else {
        written, faulted := *, true;
      }
    }

    /** Lines 136-149. */
    method WriteZeros(n: nat) returns (ok: bool)
      modifies this
      ensures ok ==> written == old(written) + Zeros(n) && hashed == old(hashed) + Zeros(n)
      ensures faulted == (old(faulted) || !ok)
    {
      var left: nat := n;
      while left > 0
        invariant left <= n && faulted == old(faulted)
        invariant written == old(written) + Zeros(n - left) && hashed == old(hashed) + Zeros(n - left)
      {
        var chunk := if left < CHUNK then left else CHUNK;
        ZerosJoin(old(written), n - left, chunk);
        ZerosJoin(old(hashed), n - left, chunk);
        ok := Write(Zeros(chunk));
        if !ok { return; }
        left := left - chunk;
      }
      ok := true;
    }

    /** io.Copy: blocks of any size until the end of the input. */
    method Copy(input: Bytes) returns (ok: bool)
      requires written == [] && hashed == []
      modifies this
      ensures ok ==> written == input && hashed == input
      ensures faulted == (old(faulted) || !ok)
    {
      var pos := 0;
      while pos < |input|
        invariant faulted == old(faulted)
        invariant 0 <= pos <= |input| && written == input[..pos] && hashed == input[..pos]
      {
        var n: int := *;
        if n < 1 || n > |input| - pos { n := |input| - pos; }
        assert input[..pos] + input[pos..pos + n] == input[..pos + n];
        ok := Write(input[pos..pos + n]);
        if !ok { return; }
        pos := pos + n;
      }
      assert input[..|input|] == input;
      ok := true;
    }
  }

  lemma ZerosJoin(s: Bytes, a: nat, b: nat)
    ensures s + Zeros(a) + Zeros(b) == s + Zeros(a + b)
  {
    assert Zeros(a) + Zeros(b) == Zeros(a + b);
  }

  /** The system calls of a build that only have to succeed, with the mode that is set, and its rename. */
  datatype Step = Open | Stat | MakeDirectories | CreateTemp | Chmod(mode: nat) | Sync | Close | Renamed

  /** The directory of the output, what was done, whether some system call failed, and whether a
      removal did. */
  class Directory {
    var files: map<string, Bytes>
    ghost var steps: seq<Step>
    ghost var faulted: bool
    ghost var unclean: bool

    constructor (files: map<string, Bytes>)
      ensures this.files == files && steps == [] && !faulted && !unclean
    {
      this.files, steps, faulted, unclean := files, [], false, false;
    }

    method Call(step: Step) returns (ok: bool)
      modifies this`steps, this`faulted
      ensures faulted == (old(faulted) || !ok)
      ensures steps == if ok then old(steps) + [step] else old(steps)
    {
      ok := *;
      if ok { steps := steps + [step]; } else { faulted := true; }
    }

    /** os.Rename. */
    method Rename(from: string, to: string) returns (ok: bool)
      requires from in files && from != to
      modifies this`files, this`steps, this`faulted
      ensures files == if ok then old(files)[to := old(files)[from]] - {from} else old(files)
      ensures faulted == (old(faulted) || !ok)
      ensures steps == if ok then old(steps) + [Renamed] else old(steps)
    {
      ok := Call(Renamed);
      if ok { files := files[to := files[from]] - {from}; }
    }

    method Remove(name: string)
      modifies this`files, this`unclean
      ensures files == old(files) - {name} || (unclean && files == old(files))
      ensures old(unclean) ==> unclean
    {
      var ok: bool := *;
      if ok { files := files - {name}; } else { unclean := true; }
    }
  }

  /** The size seen by fstat leads to the padding that what was copied needs. */
  ghost predicate SizeAgrees(size: nat, input: Bytes) {
    (|input| + Padding(size) + ZIP_SIZE) % ALIGNMENT == 0
  }

  lemma SamePadding(size: nat, input: Bytes)
    ensures SizeAgrees(size, input) <==> Padding(size) == Padding(|input|)
    ensures size == |input| ==> SizeAgrees(size, input)
  {
    LeastPadding(|input|, Padding(size));
    LeastPadding(size, 0);
  }

  /** What was written is aligned exactly when the size agreed, and then it is the bundle. */
  lemma Assembled(input: Bytes, size: nat, sha: Hash)
    ensures var front := input + Zeros(Padding(size)); var footer := MarkerZip(HexLower(sha(front))).value;
      (|front + footer| % ALIGNMENT == 0 <==> SizeAgrees(size, input))
      && (SizeAgrees(size, input) ==> front == Prefix(input) && front + footer == BundleOf(input, sha))
  {
    var front := input + Zeros(Padding(size));
    var footer := MarkerZip(HexLower(sha(front))).value;
    SamePadding(size, input);
    ZipSize(HexLower(sha(front)));
    assert |front + footer| == |input| + Padding(size) + ZIP_SIZE;
    if Padding(size) == Padding(|input|) { assert front == Prefix(input); }
  }

  /** Lines 91-99: the temporary file is readable by all, on the disk, and closed. */
  method SettleFile(d: Directory) returns (ok: bool)
    modifies d`steps, d`faulted
    ensures ok ==> d.steps == old(d.steps) + [Chmod(6 * 64 + 4 * 8 + 4), Sync, Close]
    ensures d.faulted == (old(d.faulted) || !ok)
  {
    ok := d.Call(Chmod(420));
    if ok { ok := d.Call(Sync); }
    if ok { ok := d.Call(Close); }
  }

  /** Lines 66-99: the temporary file's bytes and the digest. */
  method Assemble(d: Directory, input: Bytes, size: nat, sha: Hash) returns (r: Result<(Bytes, Bytes), Bytes>)
    modifies d`steps, d`faulted
    ensures r.Ok? ==>
              r.value.0 == BundleOf(input, sha) && r.value.1 == HexLower(sha(Prefix(input))) && SizeAgrees(size, input)
    ensures r.Ok? ==> d.steps == old(d.steps) + [Chmod(6 * 64 + 4 * 8 + 4), Sync, Close]
    ensures !d.faulted ==> (r.Ok? <==> SizeAgrees(size, input))
    ensures old(d.faulted) ==> d.faulted
  {
    hide MarkerZip;
    var sink := new Sink();
    var copied := sink.Copy(input);
    d.faulted := d.faulted || sink.faulted;
    if !copied { return Err(sink.written); }
    var padded := sink.WriteZeros(Padding(size));
    d.faulted := d.faulted || sink.faulted;
    if !padded { return Err(sink.written); }
    var digest := HexLower(sha(sink.hashed));
    ZipSize(digest);
    var footer := MarkerZip(digest).value;
    var ended := sink.Write(footer);
    d.faulted := d.faulted || sink.faulted;
    if !ended { return Err(sink.written); }
    Assembled(input, size, sha);
    if |sink.written| % ALIGNMENT != 0 { return Err(sink.written); }
    var settled := SettleFile(d);
    if !settled { return Err(sink.written); }
    r := Ok((sink.written, digest));
  }

  /** Lines 33-59: the input is open and regular, and the temporary file is there. */
  method Begin(d: Directory, regular: bool) returns (ok: bool)
    modifies d`steps, d`faulted
    ensures ok ==> regular && d.steps == old(d.steps) + [Open, Stat, MakeDirectories, CreateTemp]
    ensures (!d.faulted ==> (ok <==> regular)) && (old(d.faulted) ==> d.faulted)
  {
    ok := d.Call(Open);
    if ok { ok := d.Call(Stat); }
    ok := ok && regular;
    if ok { ok := d.Call(MakeDirectories); }
    if ok { ok := d.Call(CreateTemp); }
  }

  /** Lines 28-109. The output is either left alone or replaced in one step by the bundle of what
      was read; a failure leaves at most the temporary file, and only if its removal fails. */
  method Build(d: Directory, input: Bytes, size: nat, regular: bool, output: string, sha: Hash)
    returns (r: Result<Bytes, ()>, ghost tmp: string)
    modifies d
    ensures r.Ok? ==>
              && d.files == old(d.files)[output := BundleOf(input, sha)]
              && r.value == [100, 105, 103, 101, 115, 116, 58] + HexLower(sha(Prefix(input))) // "digest:"
              && d.steps == old(d.steps) + [Open, Stat, MakeDirectories, CreateTemp]
                            + [Chmod(6 * 64 + 4 * 8 + 4), Sync, Close] + [Renamed]
    ensures (r.Err? && !d.unclean ==> d.files == old(d.files)) && (old(d.unclean) ==> d.unclean)
    ensures r.Err? ==>
              d.files == old(d.files) || (tmp !in old(d.files) && tmp != output && d.files - {tmp} == old(d.files))
    ensures !d.faulted ==> (r.Ok? <==> regular && SizeAgrees(size, input))
    ensures old(d.faulted) ==> d.faulted
  {
    tmp := "";
    var begun := Begin(d, regular);
    if !begun { return Err(()), tmp; }
    var name: string := *;
    if name in d.files || name == output {
      d.faulted := true;
      return Err(()), tmp;
    }
    tmp := name;
    r := Fill(d, input, size, output, sha, name);
  }

  /** Lines 59-108, once the temporary file has its name. */
  method Fill(d: Directory, input: Bytes, size: nat, output: string, sha: Hash, name: string)
    returns (r: Result<Bytes, ()>)
    requires name !in d.files && name != output
    modifies d
    ensures r.Ok? ==>
              && d.files == old(d.files)[output := BundleOf(input, sha)]
              && r.value == TITLE + HexLower(sha(Prefix(input)))
              && d.steps == old(d.steps) + [Chmod(6 * 64 + 4 * 8 + 4), Sync, Close] + [Renamed]
    ensures r.Err? ==> d.files - {name} == old(d.files)
    ensures (r.Err? && !d.unclean ==> d.files == old(d.files)) && (old(d.unclean) ==> d.unclean)
    ensures !d.faulted ==> (r.Ok? <==> SizeAgrees(size, input))
    ensures old(d.faulted) ==> d.faulted
  {
    hide MarkerZip;
    var made := Assemble(d, input, size, sha);
    var content := if made.Ok? then made.value.0 else made.error;
    TakenBack(d.files, name, content, output);
    d.files := d.files[name := content];
    if made.Err? {
      d.Remove(name);
      return Err(());
    }
    var renamed := d.Rename(name, output);
    if !renamed {
      d.Remove(name);
      return Err(());
    }
    r := Ok(TITLE + made.value.1);
  }

  lemma TakenBack(files: map<string, Bytes>, name: string, content: Bytes, output: string)
    requires name !in files && name != output
    ensures files[name := content] - {name} == files && files[name := content] - {name} - {name} == files
    ensures files[name := content][output := content] - {name} == files[output := content]
  {
  }

  lemma Longer(s: Bytes, a: nat, n: nat)
    requires a + n <= |s|
    ensures s[..a] + s[a..a + n] == s[..a + n]
  {
  }

  /** Lines 53-59 of `verify_bundle`: blocks of at most one MiB, possibly short ones. */
  method DigestOf(image: Bytes, prefix: nat, sha: Hash) returns (digest: Bytes)
    requires prefix <= |image|
    ensures digest == HexLower(sha(image[..prefix]))
  {
    var fed: Bytes, remaining: nat := [], prefix;
    while remaining > 0
      invariant remaining <= prefix && fed == image[..prefix - remaining]
    {
      var most := if remaining < CHUNK then remaining else CHUNK;
      var n: int := *;
      if n < 1 || n > most { n := most; }
      var pos := prefix - remaining;
      Longer(image, pos, n);
      fed := fed + image[pos..pos + n];
      remaining := remaining - n;
    }
    digest := HexLower(sha(fed));
  }

  /** Lines 26-61. */
  method VerifyBundle(image: Bytes, sha: Hash) returns (ok: bool)
    ensures ok <==> Acceptable(image, sha)
  {
    if |image| == 0 || |image| % ALIGNMENT != 0 { return false; }
    if image[1024..1028] != EROFS_MAGIC { return false; }
    assert |image| >= ALIGNMENT;
    var located := Located(image);
    if located.None? { return false; }
    var (prefix, marker) := located.value;
    var digest := DigestOf(image, prefix, sha);
    ok := CutNul(marker.rawName) == MARKER_PREFIX + digest;
  }
}
