/** M2Crypto's wrapper over OpenSSL's S/MIME API: the PKCS#7 handle wrapper,
    cipher resolution by name, loading a PKCS#7 structure from a file, and
    the `SMIME` object whose five optional slots decide what encrypt,
    decrypt, sign, verify and write may do. The OpenSSL calls are the fields
    of a `Native` value; each may fail by returning None. */
module Smime {
  import opened Py

  type Blob = seq<byte>

  datatype PKey = PKey(ptr: Handle)
  datatype Cert = Cert(ptr: Handle)
  /** An X509_Stack. Its certificates are listed, although nothing here
      looks at them. */
  datatype CertStack = CertStack(ptr: Handle, certs: seq<Cert>)
  datatype CertStore = CertStore(ptr: Handle)
  /** A BIO wrapper; `pyfree` says whether Python frees the native BIO. */
  datatype Bio = Bio(ptr: Handle, pyfree: int)
  /** A `Cipher` object: the EVP_CIPHER obtained by calling the m2 attribute. */
  datatype Cipher = Cipher(ptr: Handle)

  /** A `PKCS7` object. Its destructor frees the native structure exactly
      when `pyfree` is truthy. */
  datatype Pkcs7 = Pkcs7(ptr: Handle, pyfree: int)
  {
    predicate Owned() { pyfree != 0 }
  }

  /** The messages `SMIME` raises `SMIME_Error` with when a slot is missing. */
  const NoCipher := "no cipher: use set_cipher()"
  const NoRecipientCerts := "no recipient certs: use set_x509_stack()"
  const NoPrivateKey := "no private key: use load_key()"
  const NoCertificate := "no certificate: load_key() used incorrectly?"
  const NoSignerCerts := "no signer certs: use set_x509_stack()"
  const NoCertStore := "no x509 cert store: use set_x509_store()"

  /** The native entry points the module calls, and the collaborator loaders
      `EVP.load_key` and `X509.load_cert`. `None` stands for a native failure.
      `errorText` is what `Err.get_error()` reads from OpenSSL's error queue
      after such a failure. */
  datatype Native = Native(
    errorText: string,
    getattr: string -> Attr,
    pkcs7New: Handle,
    bioNewFile: (string, string) -> Option<Handle>,
    smimeReadPkcs7: Handle -> (Option<Handle>, Option<Handle>),
    loadKey: string -> Option<PKey>,
    loadCert: string -> Option<Cert>,
    pkcs7Encrypt: (Handle, Handle, Handle, int) -> Option<Handle>,
    pkcs7Decrypt: (Handle, Handle, Handle, int) -> Option<Blob>,
    pkcs7Sign0: (Handle, Handle, Handle, int) -> Option<Handle>,
    pkcs7Sign1: (Handle, Handle, Handle, Handle, int) -> Option<Handle>,
    pkcs7Verify0: (Handle, Handle, Handle, int) -> Option<Blob>,
    pkcs7Verify1: (Handle, Handle, Handle, Handle, int) -> Option<Blob>,
    smimeWritePkcs7: (Handle, Handle, int) -> int,
    smimeWritePkcs7Multi: (Handle, Handle, Handle, int) -> int
  )

  /** PKCS7(pkcs7, _pyfree): wraps the given handle with the caller's
      ownership flag, or allocates a fresh structure that Python owns. */
  function NewPkcs7(n: Native, pkcs7: Option<Handle>, pyfree: int): (r: Pkcs7)
    ensures pkcs7.Some? ==> r.ptr == pkcs7.value && (r.Owned() <==> pyfree != 0)
    ensures pkcs7.None? ==> r.ptr == n.pkcs7New && r.Owned()
  {
    match pkcs7
    case Some(p) => Pkcs7(p, pyfree)
    case None => Pkcs7(n.pkcs7New, 1)
  }

  /** Cipher(algo): `getattr(m2, algo)` raises for a missing name before the
      falsy check raises ValueError('unknown cipher', algo). */
  function NewCipher(n: Native, algo: string): (r: Result<Cipher>)
    ensures n.getattr(algo).Missing? <==> r == Failure(AttributeError(algo))
    ensures n.getattr(algo).NoneValue? <==> r == Failure(ValueError(["unknown cipher", algo]))
    ensures n.getattr(algo).Callable? <==> r.Success?
    ensures r.Success? ==> r.value.ptr == n.getattr(algo).result
  {
    match n.getattr(algo)
    case Missing => Failure(AttributeError(algo))
    case NoneValue => Failure(ValueError(["unknown cipher", algo]))
    case Callable(h) => Success(Cipher(h))
  }

  /** load_pkcs7(p7file): `raise Err.get_error()` when the file cannot be
      opened or parsed. `Err.get_error()` gives the error text, a `str` (it is
      also `SMIME_Error`'s message), and under Python 2.6 and later raising a
      `str` is itself a TypeError. Otherwise an owned PKCS7 together with the detached
      content stream, present exactly when the parser returned one. */
  function LoadPkcs7(n: Native, p7file: string): (r: Result<(Pkcs7, Option<Bio>)>)
    ensures r.Failure? <==> n.bioNewFile(p7file, "r").None? || n.smimeReadPkcs7(n.bioNewFile(p7file, "r").value).0.None?
    ensures r.Failure? ==> r.error == TypeError
    ensures r.Success? ==>
              var (p7, detached) := n.smimeReadPkcs7(n.bioNewFile(p7file, "r").value);
              && r.value.0 == Pkcs7(p7.value, 1) && r.value.0.Owned()
              && (r.value.1.None? <==> detached.None?)
              && (detached.Some? ==> r.value.1 == Some(Bio(detached.value, 1)))
  {
    match n.bioNewFile(p7file, "r")
    case None => Failure(TypeError)
    case Some(bio) =>
      var (p7, detached) := n.smimeReadPkcs7(bio);
      match p7
      case None => Failure(TypeError)
      case Some(h) =>
        if detached.None? then Success((NewPkcs7(n, Some(h), 1), None))
        else Success((NewPkcs7(n, Some(h), 1), Some(Bio(detached.value, 1))))
  }

  /** The S/MIME orchestration object. Each slot is absent until set; the
      source tests presence with `hasattr` and clears a slot with `del`. */
  class SMIME {
    var pkey: Option<PKey>
    var x509: Option<Cert>
    var x509Stack: Option<CertStack>
    var x509Store: Option<CertStore>
    var cipher: Option<Cipher>

    constructor ()
      ensures pkey == None && x509 == None && x509Stack == None && x509Store == None && cipher == None
    {
      pkey, x509, x509Stack, x509Store, cipher := None, None, None, None, None;
    }

    /** load_key(keyfile, certfile=None): a certfile of None means the key
        file holds the certificate too. The key is stored before the
        certificate is loaded, so a failing certificate load leaves the new
        key beside the old certificate slot. */
    method LoadKey(n: Native, keyfile: string, certfile: Option<string>) returns (r: Result<()>)
      modifies this
      ensures x509Stack == old(x509Stack) && x509Store == old(x509Store) && cipher == old(cipher)
      ensures var source := if certfile.None? then keyfile else certfile.value;
              match n.loadKey(keyfile)
              case None => r == Failure(OpenSslError) && pkey == old(pkey) && x509 == old(x509)
              case Some(k) =>
                && pkey == Some(k)
                && match n.loadCert(source)
                   case None => r == Failure(OpenSslError) && x509 == old(x509)
                   case Some(c) => r == Success(()) && x509 == Some(c)
    {
      var source := if certfile.None? then keyfile else certfile.value;
      var k := n.loadKey(keyfile);
      if k.None? {
        return Failure(OpenSslError);
      }
      pkey := k;
      var c := n.loadCert(source);
      if c.None? {
        return Failure(OpenSslError);
      }
      x509 := c;
      r := Success(());
    }

    method SetX509Stack(stack: CertStack)
      modifies this
      ensures x509Stack == Some(stack)
      ensures pkey == old(pkey) && x509 == old(x509) && x509Store == old(x509Store) && cipher == old(cipher)
    {
      x509Stack := Some(stack);
    }

    method SetX509Store(store: CertStore)
      modifies this
      ensures x509Store == Some(store)
      ensures pkey == old(pkey) && x509 == old(x509) && x509Stack == old(x509Stack) && cipher == old(cipher)
    {
      x509Store := Some(store);
    }

    method SetCipher(c: Cipher)
      modifies this
      ensures cipher == Some(c)
      ensures pkey == old(pkey) && x509 == old(x509) && x509Stack == old(x509Stack) && x509Store == old(x509Store)
    {
      cipher := Some(c);
    }

    /** unset_key(): `del self.pkey` then `del self.x509`; each raises
        AttributeError when its slot is absent, and the first deletion is
        not undone when the second raises. */
    method UnsetKey() returns (r: Result<()>)
      modifies this
      ensures x509Stack == old(x509Stack) && x509Store == old(x509Store) && cipher == old(cipher)
      ensures old(pkey).None? ==> r == Failure(AttributeError("pkey")) && pkey == None && x509 == old(x509)
      ensures old(pkey).Some? && old(x509).None? ==> r == Failure(AttributeError("x509")) && pkey == None && x509 == None
      ensures old(pkey).Some? && old(x509).Some? ==> r == Success(()) && pkey == None && x509 == None
    {
      if pkey.None? {
        return Failure(AttributeError("pkey"));
      }
      pkey := None;
      if x509.None? {
        return Failure(AttributeError("x509"));
      }
      x509 := None;
      r := Success(());
    }

    method UnsetX509Stack() returns (r: Result<()>)
      modifies this
      ensures r == if old(x509Stack).None? then Failure(AttributeError("x509_stack")) else Success(())
      ensures x509Stack == None
      ensures pkey == old(pkey) && x509 == old(x509) && x509Store == old(x509Store) && cipher == old(cipher)
    {
      r := if x509Stack.None? then Failure(AttributeError("x509_stack")) else Success(());
      x509Stack := None;
    }

    method UnsetX509Store() returns (r: Result<()>)
      modifies this
      ensures r == if old(x509Store).None? then Failure(AttributeError("x509_store")) else Success(())
      ensures x509Store == None
      ensures pkey == old(pkey) && x509 == old(x509) && x509Stack == old(x509Stack) && cipher == old(cipher)
    {
      r := if x509Store.None? then Failure(AttributeError("x509_store")) else Success(());
      x509Store := None;
    }

    method UnsetCipher() returns (r: Result<()>)
      modifies this
      ensures r == if old(cipher).None? then Failure(AttributeError("cipher")) else Success(())
      ensures cipher == None
      ensures pkey == old(pkey) && x509 == old(x509) && x509Stack == old(x509Stack) && x509Store == old(x509Store)
    {
      r := if cipher.None? then Failure(AttributeError("cipher")) else Success(());
      cipher := None;
    }

    /** encrypt(data_bio, flags): the cipher is checked before the recipient
        stack, and an empty stack is passed on to OpenSSL unchecked. */
    method Encrypt(n: Native, dataBio: Bio, flags: int) returns (r: Result<Pkcs7>)
      ensures cipher.None? ==> r == Failure(SmimeError(NoCipher))
      ensures cipher.Some? && x509Stack.None? ==> r == Failure(SmimeError(NoRecipientCerts))
      ensures cipher.Some? && x509Stack.Some? ==>
                match n.pkcs7Encrypt(x509Stack.value.ptr, dataBio.ptr, cipher.value.ptr, flags)
                case None => r == Failure(SmimeError(n.errorText))
                case Some(h) => r == Success(Pkcs7(h, 1)) && r.value.Owned()
    {
      if cipher.None? {
        return Failure(SmimeError(NoCipher));
      }
      if x509Stack.None? {
        return Failure(SmimeError(NoRecipientCerts));
      }
      var p7 := n.pkcs7Encrypt(x509Stack.value.ptr, dataBio.ptr, cipher.value.ptr, flags);
      if p7.None? {
        return Failure(SmimeError(n.errorText));
      }
      r := Success(NewPkcs7(n, p7, 1));
    }

    /** decrypt(pkcs7, flags): the private key is checked before the
        certificate. */
    method Decrypt(n: Native, pkcs7: Pkcs7, flags: int) returns (r: Result<Blob>)
      ensures pkey.None? ==> r == Failure(SmimeError(NoPrivateKey))
      ensures pkey.Some? && x509.None? ==> r == Failure(SmimeError(NoCertificate))
      ensures pkey.Some? && x509.Some? ==>
                match n.pkcs7Decrypt(pkcs7.ptr, pkey.value.ptr, x509.value.ptr, flags)
                case None => r == Failure(SmimeError(n.errorText))
                case Some(blob) => r == Success(blob)
    {
      if pkey.None? {
        return Failure(SmimeError(NoPrivateKey));
      }
      if x509.None? {
        return Failure(SmimeError(NoCertificate));
      }
      var blob := n.pkcs7Decrypt(pkcs7.ptr, pkey.value.ptr, x509.value.ptr, flags);
      if blob.None? {
        return Failure(SmimeError(n.errorText));
      }
      r := Success(blob.value);
    }

    /** sign(data_bio, flags): only the private key is checked. With a stack
        set, the stack-taking entry point is used; a missing certificate is
        met when its `_ptr()` is taken, as an AttributeError. */
    method Sign(n: Native, dataBio: Bio, flags: int) returns (r: Result<Pkcs7>)
      ensures pkey.None? ==> r == Failure(SmimeError(NoPrivateKey))
      ensures pkey.Some? && x509.None? ==> r == Failure(AttributeError("x509"))
      ensures pkey.Some? && x509.Some? ==>
                var signed :=
                  if x509Stack.Some?
                  then n.pkcs7Sign1(x509.value.ptr, pkey.value.ptr, x509Stack.value.ptr, dataBio.ptr, flags)
                  else n.pkcs7Sign0(x509.value.ptr, pkey.value.ptr, dataBio.ptr, flags);
                match signed
                case None => r == Failure(SmimeError(n.errorText))
                case Some(h) => r == Success(Pkcs7(h, 1)) && r.value.Owned()
    {
      if pkey.None? {
        return Failure(SmimeError(NoPrivateKey));
      }
      var p7: Option<Handle>;
      if x509Stack.Some? {
        if x509.None? {
          return Failure(AttributeError("x509"));
        }
        p7 := n.pkcs7Sign1(x509.value.ptr, pkey.value.ptr, x509Stack.value.ptr, dataBio.ptr, flags);
      } else {
        if x509.None? {
          return Failure(AttributeError("x509"));
        }
        p7 := n.pkcs7Sign0(x509.value.ptr, pkey.value.ptr, dataBio.ptr, flags);
      }
      if p7.None? {
        return Failure(SmimeError(n.errorText));
      }
      r := Success(NewPkcs7(n, p7, 1));
    }

    /** verify(pkcs7, data_bio=None, flags): the signer stack is checked
        before the store; absent content means the signature carries it. */
    method Verify(n: Native, pkcs7: Pkcs7, dataBio: Option<Bio>, flags: int) returns (r: Result<Blob>)
      ensures x509Stack.None? ==> r == Failure(SmimeError(NoSignerCerts))
      ensures x509Stack.Some? && x509Store.None? ==> r == Failure(SmimeError(NoCertStore))
      ensures x509Stack.Some? && x509Store.Some? ==>
                var blob :=
                  if dataBio.None?
                  then n.pkcs7Verify0(pkcs7.ptr, x509Stack.value.ptr, x509Store.value.ptr, flags)
                  else n.pkcs7Verify1(pkcs7.ptr, x509Stack.value.ptr, x509Store.value.ptr, dataBio.value.ptr, flags);
                match blob
                case None => r == Failure(SmimeError(n.errorText))
                case Some(b) => r == Success(b)
    {
      if x509Stack.None? {
        return Failure(SmimeError(NoSignerCerts));
      }
      if x509Store.None? {
        return Failure(SmimeError(NoCertStore));
      }
      var blob: Option<Blob>;
      if dataBio.None? {
        blob := n.pkcs7Verify0(pkcs7.ptr, x509Stack.value.ptr, x509Store.value.ptr, flags);
      } else {
        blob := n.pkcs7Verify1(pkcs7.ptr, x509Stack.value.ptr, x509Store.value.ptr, dataBio.value.ptr, flags);
      }
      if blob.None? {
        return Failure(SmimeError(n.errorText));
      }
      r := Success(blob.value);
    }

    /** write(out_bio, pkcs7, data_bio=None, flags): multipart output exactly
        when detached content is supplied; the native result is returned
        as it is, with no slot consulted. */
    method Write(n: Native, outBio: Bio, pkcs7: Pkcs7, dataBio: Option<Bio>, flags: int) returns (written: int)
      ensures dataBio.None? ==> written == n.smimeWritePkcs7(outBio.ptr, pkcs7.ptr, flags)
      ensures dataBio.Some? ==> written == n.smimeWritePkcs7Multi(outBio.ptr, pkcs7.ptr, dataBio.value.ptr, flags)
    {
      if dataBio.None? {
        written := n.smimeWritePkcs7(outBio.ptr, pkcs7.ptr, flags);
      } else {
        written := n.smimeWritePkcs7Multi(outBio.ptr, pkcs7.ptr, dataBio.value.ptr, flags);
      }
    }
  }

  /** A caller's sequence of calls on a fresh object: load a key, clear it,
      then try to sign and to decrypt. Both fail for want of a private key,
      whether or not the key loaded. */
  method SignAfterUnsetKey(n: Native, keyfile: string, dataBio: Bio, pkcs7: Pkcs7, flags: int)
    returns (signed: Result<Pkcs7>, decrypted: Result<Blob>)
    ensures signed == Failure(SmimeError(NoPrivateKey))
    ensures decrypted == Failure(SmimeError(NoPrivateKey))
  {
    var s := new SMIME();
    var loaded := s.LoadKey(n, keyfile, None);
    var cleared := s.UnsetKey();
    signed := s.Sign(n, dataBio, flags);
    decrypted := s.Decrypt(n, pkcs7, flags);
  }

  /** With a cipher resolved by name and an empty recipient stack, encrypt
      still hands the empty stack to OpenSSL; without the cipher it reports
      the cipher, not the stack. */
  method EncryptToEmptyStack(n: Native, algo: string, stackPtr: Handle, dataBio: Bio, flags: int)
    returns (r: Result<Pkcs7>)
    ensures n.getattr(algo).Callable? ==>
              match n.pkcs7Encrypt(stackPtr, dataBio.ptr, n.getattr(algo).result, flags)
              case None => r == Failure(SmimeError(n.errorText))
              case Some(h) => r == Success(Pkcs7(h, 1))
    ensures !n.getattr(algo).Callable? ==> r == Failure(SmimeError(NoCipher))
  {
    var s := new SMIME();
    var c := NewCipher(n, algo);
    if c.Success? {
      s.SetCipher(c.value);
    }
    s.SetX509Stack(CertStack(stackPtr, []));
    r := s.Encrypt(n, dataBio, flags);
  }

  /** Signing with a key loaded from one file: on success the stack-less
      entry point is called with the key and the certificate from that same
      file. */
  method SignWithCombinedKeyFile(n: Native, keyfile: string, dataBio: Bio, flags: int)
    returns (r: Result<Pkcs7>)
    ensures n.loadKey(keyfile).Some? && n.loadCert(keyfile).Some? ==>
              match n.pkcs7Sign0(n.loadCert(keyfile).value.ptr, n.loadKey(keyfile).value.ptr, dataBio.ptr, flags)
              case None => r == Failure(SmimeError(n.errorText))
              case Some(h) => r == Success(Pkcs7(h, 1))
    ensures n.loadKey(keyfile).None? ==> r == Failure(SmimeError(NoPrivateKey))
    ensures n.loadKey(keyfile).Some? && n.loadCert(keyfile).None? ==> r == Failure(AttributeError("x509"))
  {
    var s := new SMIME();
    var loaded := s.LoadKey(n, keyfile, None);
    r := s.Sign(n, dataBio, flags);
  }
}
