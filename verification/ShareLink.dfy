/**
 Share links: the target address encrypted, authenticated, and carried as two base64url texts. The
 primitives are functions with the laws the code relies on; keys and the IV come from the caller.
 */
module ShareLink {
  import opened Base64Url
  import opened Octets
  import opened Prelude

  const SEED_LENGTH := 64
  const IV_LENGTH := 16
  const TAG_LENGTH := 32
  const BLOCK := 16

  /** Key derivation is folded into the keyed primitives: each takes the seed. */
  datatype Primitives = Primitives(
    encrypt: (Bytes, Bytes, Bytes) -> Bytes,
    decrypt: (Bytes, Bytes, Bytes) -> Option<Bytes>,
    sign: (Bytes, Bytes) -> Bytes,
    verify: (Bytes, Bytes, Bytes) -> bool,
    toUtf8: string -> Bytes,
    fromUtf8: Bytes -> string,
    canonical: string -> Option<string>,
    macPrefix: Bytes)

  ghost predicate Laws(p: Primitives) {
    && (forall k, iv, m :: p.decrypt(k, iv, p.encrypt(k, iv, m)) == Some(m))
    && (forall k, iv, m :: |p.encrypt(k, iv, m)| >= BLOCK && |p.encrypt(k, iv, m)| % BLOCK == 0)
    && (forall k, d :: |p.sign(k, d)| == TAG_LENGTH)
    && (forall k, t, d :: p.verify(k, t, d) <==> t == p.sign(k, d))
    && (forall s :: p.fromUtf8(p.toUtf8(s)) == s)
    && (forall u :: p.canonical(u).Some? ==> p.canonical(p.canonical(u).value) == p.canonical(u))
  }

  datatype Share = Share(encrypted: string, key: string, target: string)

  datatype Opened = Target(url: string) | InvalidBase64 | InvalidShareLink | BadHmac | Rejected

  /** `None` when the address is not one the proxy serves. */
  function Seal(p: Primitives, url: string, seed: Bytes, iv: Bytes): Option<Share> {
    var c := p.canonical(url);
    if c.None? then None
    else
      var ciphertext := p.encrypt(seed, iv, p.toUtf8(c.value));
      var tag := p.sign(seed, Flat([p.macPrefix, iv, ciphertext]));
      Some(Share(EncodeUrl(Flat([iv, ciphertext, tag])), EncodeUrl(seed), c.value))
  }

  function OpenBlob(p: Primitives, seed: Bytes, blob: Bytes): Opened {
    if |blob| < 64 || (|blob| - IV_LENGTH - TAG_LENGTH) % BLOCK != 0 then InvalidShareLink
    else
      var iv, ciphertext, tag := blob[..IV_LENGTH], blob[IV_LENGTH..|blob| - TAG_LENGTH], blob[|blob| - TAG_LENGTH..];
      if |seed| != SEED_LENGTH then InvalidShareLink
      else if !p.verify(seed, tag, Flat([p.macPrefix, iv, ciphertext])) then BadHmac
      else
        var plain := p.decrypt(seed, iv, ciphertext);
        if plain.None? then InvalidShareLink
        else
          var c := p.canonical(p.fromUtf8(plain.value));
          if c.None? then Rejected else Target(c.value)
  }

  function Open(p: Primitives, encrypted: string, key: string): Opened {
    var seed := DecodeUrl(key);
    if seed.None? then InvalidBase64
    else
      var blob := DecodeUrl(encrypted);
      if blob.None? then InvalidBase64 else OpenBlob(p, seed.value, blob.value)
  }

  lemma FlatThree(a: Bytes, b: Bytes, c: Bytes)
    ensures Flat([a, b, c]) == a + b + c
  {
    assert [a, b, c][..2] == [a, b];
    assert [a, b][..1] == [a];
    assert [a][..0] == [];
    assert Flat([a]) == a;
    assert Flat([a, b]) == a + b;
  }

  /** Cutting a blob at 16 from the front and 32 from the back undoes the concatenation. */
  lemma CutsUndoConcat(iv: Bytes, ciphertext: Bytes, tag: Bytes)
    requires |iv| == IV_LENGTH && |tag| == TAG_LENGTH
    ensures var blob := Flat([iv, ciphertext, tag]);
      && |blob| == IV_LENGTH + |ciphertext| + TAG_LENGTH
      && blob[..IV_LENGTH] == iv
      && blob[IV_LENGTH..|blob| - TAG_LENGTH] == ciphertext
      && blob[|blob| - TAG_LENGTH..] == tag
  {
    FlatThree(iv, ciphertext, tag);
  }

  lemma OpenSealedBlob(p: Primitives, target: string, seed: Bytes, iv: Bytes)
    requires Laws(p) && |seed| == SEED_LENGTH && |iv| == IV_LENGTH && p.canonical(target) == Some(target)
    ensures var ciphertext := p.encrypt(seed, iv, p.toUtf8(target));
      OpenBlob(p, seed, Flat([iv, ciphertext, p.sign(seed, Flat([p.macPrefix, iv, ciphertext]))])) == Target(target)
  {
    var ciphertext := p.encrypt(seed, iv, p.toUtf8(target));
    CutsUndoConcat(iv, ciphertext, p.sign(seed, Flat([p.macPrefix, iv, ciphertext])));
  }

  /** Opening a sealed link gives back the canonical address, for every address, seed and IV. */
  lemma OpenSealed(p: Primitives, url: string, seed: Bytes, iv: Bytes)
    requires Laws(p) && |seed| == SEED_LENGTH && |iv| == IV_LENGTH
    requires Seal(p, url, seed, iv).Some?
    ensures var s := Seal(p, url, seed, iv).value; Open(p, s.encrypted, s.key) == Target(s.target)
    ensures Some(Seal(p, url, seed, iv).value.target) == p.canonical(url)
  {
    var c := p.canonical(url).value;
    var ciphertext := p.encrypt(seed, iv, p.toUtf8(c));
    var tag := p.sign(seed, Flat([p.macPrefix, iv, ciphertext]));
    OpenSealedBlob(p, c, seed, iv);
    DecodeEncode(seed);
    DecodeEncode(Flat([iv, ciphertext, tag]));
  }

  /**
   A link opens only if it is authentic: its blob is IV, ciphertext and the very tag the key signs over them.
   In particular the blob is what sealing under that key would carry for this IV and ciphertext.
   */
  lemma OpensOnlyAuthentic(p: Primitives, encrypted: string, key: string)
    requires Laws(p) && Open(p, encrypted, key).Target?
    ensures DecodeUrl(key).Some? && DecodeUrl(encrypted).Some? && |DecodeUrl(key).value| == SEED_LENGTH
    ensures var seed, blob := DecodeUrl(key).value, DecodeUrl(encrypted).value;
      && |blob| >= IV_LENGTH + BLOCK + TAG_LENGTH
      && var iv, ciphertext := blob[..IV_LENGTH], blob[IV_LENGTH..|blob| - TAG_LENGTH];
         && |ciphertext| % BLOCK == 0
         && blob == Flat([iv, ciphertext, p.sign(seed, Flat([p.macPrefix, iv, ciphertext]))])
  {
    OpenBlobAuthentic(p, DecodeUrl(key).value, DecodeUrl(encrypted).value);
  }

  lemma OpenBlobAuthentic(p: Primitives, seed: Bytes, blob: Bytes)
    requires Laws(p) && OpenBlob(p, seed, blob).Target?
    ensures |seed| == SEED_LENGTH && |blob| >= IV_LENGTH + BLOCK + TAG_LENGTH
    ensures var iv, ciphertext := blob[..IV_LENGTH], blob[IV_LENGTH..|blob| - TAG_LENGTH];
      && |ciphertext| % BLOCK == 0
      && blob == Flat([iv, ciphertext, p.sign(seed, Flat([p.macPrefix, iv, ciphertext]))])
  {
    var iv, ciphertext, tag := blob[..IV_LENGTH], blob[IV_LENGTH..|blob| - TAG_LENGTH], blob[|blob| - TAG_LENGTH..];
    FlatThree(iv, ciphertext, tag);
    assert blob == iv + ciphertext + tag;
  }
}
