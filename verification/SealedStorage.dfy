/**
 Sealing of private state (internal/agent/runtime_security_storage.go): files
 are rewritten one by one under a new key and a marker is written last. The
 sealed envelope is taken as an authenticated box that opens only with its own
 key and purpose (internal/protectedstate).
 */
module SealedStorage {
  import opened AtomicWrite
  import opened Wrappers

  /** Every sealing draws a fresh nonce. */
  datatype Blob = Plain(text: string) | Sealed(key: nat, purpose: string, text: string, nonce: nat)

  datatype SecurityPolicy = Absent | Standard | Other

  datatype Outcome = Done | Refused | Interrupted

  /** The protected files, in the order the migration visits them. */
  const PROTECTED := [
    "ssh-inbounds.json", "ssh-inbounds.last-good.json", "ssh-inbounds-host-key",
    "tunnels.json", "tunnels.last-good.json"]

  /** Plaintext is no longer accepted. */
  predicate Required(ready: bool, policy: SecurityPolicy) {
    ready || policy.Other?
  }

  function OpenBlob(name: string, blob: Blob, key: Option<nat>, required: bool): Option<string> {
    match blob
    case Plain(text) => if required && name in PROTECTED then None else Some(text)
    case Sealed(k, purpose, text, _) =>
      if name in PROTECTED && key == Some(k) && purpose == name then Some(text) else None
  }

  function SealBlob(name: string, text: string, key: Option<nat>, required: bool, nonce: nat): Option<Blob> {
    if name !in PROTECTED then Some(Plain(text))
    else if key.Some? then Some(Sealed(key.value, name, text, nonce))
    else if required then None
    else Some(Plain(text))
  }

  /** What can be sealed can be read back, under the same key and rules. */
  lemma SealThenOpen(name: string, text: string, key: Option<nat>, required: bool, nonce: nat)
    ensures var blob := SealBlob(name, text, key, required, nonce);
            blob.Some? ==> OpenBlob(name, blob.value, key, required) == Some(text)
  {
  }

  /**
   What does not open: a sealed file under another name or another key, a sealed
   file that is not a protected one, and a protected plain file once a marker or
   a policy other than the standard one demands sealing.
   */
  lemma OpensIff(name: string, blob: Blob, key: Option<nat>, ready: bool, policy: SecurityPolicy)
    ensures var read := OpenBlob(name, blob, key, Required(ready, policy));
            && (read.Some? ==> read.value == blob.text)
            && (read.Some? <==>
                  if blob.Plain? then name !in PROTECTED || (!ready && policy != Other)
                  else name in PROTECTED && key == Some(blob.key) && blob.purpose == name)
  {
  }

  /** What is written is sealed for its name wherever there is a key, and refused where one is missing but demanded. */
  lemma SealsIff(name: string, text: string, key: Option<nat>, ready: bool, policy: SecurityPolicy, nonce: nat)
    ensures var blob := SealBlob(name, text, key, Required(ready, policy), nonce);
            && (blob.None? <==> name in PROTECTED && key.None? && (ready || policy == Other))
            && (blob.Some? ==>
                  blob.value == if name in PROTECTED && key.Some? then Sealed(key.value, name, text, nonce)
                                else Plain(text))
  {
  }

  /** A sealed file put in the place of another is not taken for it. */
  lemma SwappedFileIsRefused(name: string, other: string, text: string, key: Option<nat>, required: bool, nonce: nat)
    requires name in PROTECTED && name != other && key.Some?
    ensures var blob := SealBlob(name, text, key, required, nonce);
            blob.Some? && OpenBlob(other, blob.value, key, required) == None
  {
  }

  /** The blob without its nonce. */
  function Bare(blob: Blob): Blob {
    if blob.Sealed? then blob.(nonce := 0) else blob
  }

  /** `blob` is what writing `text` gives, whatever the nonce; nothing is if the write is refused. */
  predicate Holds(blob: Blob, name: string, text: string, key: Option<nat>, required: bool) {
    SealBlob(name, text, key, required, 0) == Some(Bare(blob))
  }

  /** The same files, sealed the same way, up to the nonces. */
  ghost predicate SameSealing(a: map<string, Blob>, b: map<string, Blob>) {
    a.Keys == b.Keys && forall name :: name in a ==> Bare(a[name]) == Bare(b[name])
  }

  /** Every file opens to the text it is meant to hold. */
  ghost predicate Readable(files: map<string, Blob>, key: Option<nat>, required: bool, texts: map<string, string>) {
    && files.Keys == texts.Keys
    && forall name :: name in files ==> OpenBlob(name, files[name], key, required) == Some(texts[name])
  }

  ghost predicate AllSealed(files: map<string, Blob>, key: Option<nat>, names: seq<string>) {
    forall i :: 0 <= i < |names| && names[i] in files ==>
      names[i] in PROTECTED && key.Some? && files[names[i]].Sealed? && files[names[i]].key == key.value
  }

  /** Once plaintext is refused, every protected file that can be read is sealed under the present key. */
  lemma RequiredMeansSealed(files: map<string, Blob>, key: Option<nat>, texts: map<string, string>)
    requires Readable(files, key, true, texts)
    ensures AllSealed(files, key, PROTECTED)
  {
    forall i | 0 <= i < |PROTECTED| && PROTECTED[i] in files
      ensures key.Some? && files[PROTECTED[i]].Sealed? && files[PROTECTED[i]].key == key.value
    {
      assert OpenBlob(PROTECTED[i], files[PROTECTED[i]], key, true).Some?;
    }
  }

  /** Refusing plaintext keeps every file readable exactly if every protected file is sealed. */
  lemma RefusalKeepsReadableIff(files: map<string, Blob>, key: Option<nat>, required: bool, texts: map<string, string>)
    requires Readable(files, key, required, texts)
    ensures Readable(files, key, true, texts) <==> AllSealed(files, key, PROTECTED)
  {
    if Readable(files, key, true, texts) {
      RequiredMeansSealed(files, key, texts);
    }
    if AllSealed(files, key, PROTECTED) {
      forall name | name in files ensures OpenBlob(name, files[name], key, true) == Some(texts[name]) {
        assert OpenBlob(name, files[name], key, required) == Some(texts[name]);
        if name in PROTECTED {
          var i :| 0 <= i < |PROTECTED| && PROTECTED[i] == name;
          assert files[PROTECTED[i]].Sealed?;
        }
      }
    }
  }

  class Store {
    var files: map<string, Blob>
    var key: Option<nat>
    var ready: bool
    var policy: SecurityPolicy
    ghost var texts: map<string, string>
    ghost var faults: nat   // reads and writes that did not go through

    ghost predicate Valid()
      reads this
    {
      Readable(files, key, Required(ready, policy), texts)
    }

    /** A host that never sealed anything: plain files and the standard profile. */
    constructor (texts: map<string, string>, policy: SecurityPolicy)
      requires !policy.Other?
      ensures Valid() && this.texts == texts && key.None? && !ready && this.policy == policy
    {
      files, key, ready := map name | name in texts :: Plain(texts[name]), None, false;
      this.policy, this.texts, faults := policy, texts, 0;
    }

    method Write(name: string, text: string) returns (w: Written)
      requires Valid()
      modifies this
      ensures Valid() && key == old(key) && ready == old(ready) && policy == old(policy)
      ensures files == old(files) || (name in files && files == old(files)[name := files[name]]
                                      && Holds(files[name], name, text, key, Required(ready, policy)))
      ensures texts == old(texts) || texts == old(texts)[name := text]
      ensures name in old(texts) && old(texts)[name] == text ==> texts == old(texts)
      ensures old(faults) <= faults
      ensures !w.Synced? && faults == old(faults) ==> SealBlob(name, text, key, Required(ready, policy), 0).None?
      ensures w.Synced? ==> name in files && Holds(files[name], name, text, key, Required(ready, policy))
                            && files == old(files)[name := files[name]] && texts == old(texts)[name := text]
    {
      var nonce: nat := *;
      var blob := SealBlob(name, text, key, Required(ready, policy), nonce);
      if blob.None? {
        return WriteFailed;
      }
      w := *;
      if !w.Synced? {
        faults := faults + 1;
      }
      var published: bool := *;
      if w.Synced? || published {
        files := files[name := blob.value];
        texts := texts[name := text];
      }
    }

    /** The reading side: a protected file that is not sealed is refused once sealing is required. */
    method Read(name: string) returns (text: Option<string>)
      requires Valid()
      ensures text == if name in texts then Some(texts[name]) else None
    {
      if name !in files {
        return None;
      }
      text := OpenBlob(name, files[name], key, Required(ready, policy));
    }

    /** A file may be there and yet not be readable. */
    method Unreadable() returns (struck: bool)
      modifies this`faults
      ensures faults == old(faults) + if struck then 1 else 0
    {
      struck := *;
      if struck {
        faults := faults + 1;
      }
    }

    /** A new key is only created while no file depends on one. */
    method EnsureKey(newKey: nat) returns (outcome: Outcome)
      requires Valid()
      modifies this
      ensures Valid() && texts == old(texts) && files == old(files) && ready == old(ready) && policy == old(policy)
      ensures old(key).Some? || Required(ready, policy) ==> key == old(key)
      ensures outcome.Done? ==> key.Some?
      ensures old(faults) <= faults
      ensures !outcome.Done? && faults == old(faults) ==> key.None? && Required(ready, policy)
    {
      var struck := Unreadable();
      if struck {
        return Refused;
      }
      if key.Some? {
        return Done;
      }
      if Required(ready, policy) {
        return Refused;
      }
      for i := 0 to |PROTECTED|
        invariant forall j :: 0 <= j < i && PROTECTED[j] in files ==> files[PROTECTED[j]].Plain?
        invariant files == old(files) && key == old(key) && texts == old(texts) && ready == old(ready)
        invariant policy == old(policy) && old(faults) <= faults
      {
        struck := Unreadable();
        if struck {
          return Refused;
        }
        var name := PROTECTED[i];
        if name in files && files[name].Sealed? {
          return Refused;
        }
      }
      var w: Written := *;
      if !w.Synced? {
        faults := faults + 1;
      }
      var published: bool := *;
      if w.Synced? || published {
        key := Some(newKey);
      }
      return if w.Synced? then Done else if w.WriteCrashed? then Interrupted else Refused;
    }

    /** Rewrites the named files under the present key, one at a time. */
    method SealAll(names: seq<string>) returns (outcome: Outcome)
      requires Valid() && key.Some? && forall i :: 0 <= i < |names| ==> names[i] in PROTECTED
      modifies this
      ensures Valid() && texts == old(texts) && policy == old(policy) && ready == old(ready) && key == old(key)
      ensures outcome.Done? ==> AllSealed(files, key, names)
      ensures old(faults) <= faults && (!outcome.Done? ==> old(faults) < faults)
      ensures Required(ready, policy) ==> SameSealing(files, old(files))
    {
      hide Readable;
      for i := 0 to |names|
        invariant Valid() && key == old(key) && texts == old(texts) && policy == old(policy) && ready == old(ready)
        invariant AllSealed(files, key, names[..i]) && old(faults) <= faults
        invariant Required(ready, policy) ==> SameSealing(files, old(files))
      {
        var w := Reseal(names[i]);
        if !w.Synced? {
          return if w.WriteCrashed? then Interrupted else Refused;
        }
      }
      assert names[..|names|] == names;
      return Done;
    }

    method Reseal(name: string) returns (w: Written)
      requires Valid() && key.Some? && name in PROTECTED
      modifies this
      ensures Valid() && texts == old(texts) && policy == old(policy) && ready == old(ready) && key == old(key)
      ensures files == old(files) || (name in files && files == old(files)[name := files[name]]
                                      && Bare(files[name]) == Sealed(key.value, name, texts[name], 0))
      ensures old(faults) <= faults && (!w.Synced? ==> old(faults) < faults)
      ensures w.Synced? && name in files ==> Bare(files[name]) == Sealed(key.value, name, texts[name], 0)
      ensures Required(ready, policy) ==> SameSealing(files, old(files))
    {
      var struck := Unreadable();
      if struck {
        return WriteFailed;
      }
      var text := Read(name);
      if text.None? {
        return Synced;
      }
      assert Required(ready, policy) ==> Bare(files[name]) == Sealed(key.value, name, text.value, 0);
      w := Write(name, text.value);
    }

    /**
     The migration. At whatever point it stops, every file still reads as it did
     before; when it finishes, plaintext is refused and everything is sealed.
     Run again it changes nothing but the nonces.
     */
    method Enable(newKey: nat) returns (outcome: Outcome)
      requires Valid()
      modifies this
      ensures Valid() && texts == old(texts) && policy == old(policy) && old(faults) <= faults
      ensures old(ready) ==> ready && SameSealing(files, old(files)) && key == old(key)
      ensures outcome.Done? ==> ready && AllSealed(files, key, PROTECTED)
      ensures !outcome.Done? && faults == old(faults) ==> old(key).None? && old(Required(ready, policy))
    {
      outcome := EnsureKey(newKey);
      if !outcome.Done? {
        return;
      }
      outcome := SealAll(PROTECTED);
      if !outcome.Done? {
        return;
      }
      var w: Written := *;
      if !w.Synced? {
        faults := faults + 1;
      }
      var published: bool := *;
      if w.Synced? || published {
        ready := true;
      }
      return if w.Synced? then Done else if w.WriteCrashed? then Interrupted else Refused;
    }

    /**
     The policy a security switch writes: the enhanced one only after the
     migration. At whatever point it stops, every file reads as it did before.
     */
    method Adopt(enhanced: bool, newKey: nat) returns (outcome: Outcome)
      requires Valid()
      modifies this
      ensures Valid() && texts == old(texts)
      ensures policy == old(policy) || policy == if enhanced then Other else Standard
      ensures outcome.Done? ==> policy == (if enhanced then Other else Standard) && (enhanced ==> ready)
      ensures outcome.Done? && enhanced ==> AllSealed(files, key, PROTECTED)
      ensures !outcome.Done? && faults == old(faults) ==> enhanced && old(key).None? && old(Required(ready, policy))
    {
      if enhanced {
        outcome := Enable(newKey);
        if !outcome.Done? {
          return;
        }
      }
      RefusalKeepsReadableIff(files, key, Required(ready, policy), texts);
      if !Required(ready, Standard) {
        LooserKeepsReadable(files, key, Required(ready, policy), texts);
      }
      var w: Written := *;
      if !w.Synced? {
        faults := faults + 1;
      }
      var published: bool := *;
      if w.Synced? || published {
        policy := if enhanced then Other else Standard;
      }
      return if w.Synced? then Done else if w.WriteCrashed? then Interrupted else Refused;
    }
  }

  /** What reads while plaintext is refused also reads when it is not. */
  lemma LooserKeepsReadable(files: map<string, Blob>, key: Option<nat>, required: bool, texts: map<string, string>)
    requires Readable(files, key, required, texts)
    ensures Readable(files, key, false, texts)
  {
    forall name | name in files ensures OpenBlob(name, files[name], key, false) == Some(texts[name]) {
      assert OpenBlob(name, files[name], key, required) == Some(texts[name]);
    }
  }
}
