# M2Crypto S/MIME orchestration, byte utilities and SSL context registry — a Dafny model

This project models three pieces of M2Crypto, the Python 2 wrapper around OpenSSL, as run by Python 2.6 or 2.7:

- **`M2Crypto/SMIME.py`**: the `SMIME` object, the `PKCS7` handle wrapper, `Cipher` name resolution and `load_pkcs7`. `SMIME` has five optional slots: `pkey`, `x509`, `x509_stack`, `x509_store` and `cipher`. `load_key`, `set_*` and `unset_*` fill and clear them. `encrypt` checks `cipher` and then `x509_stack`, and calls `pkcs7_encrypt`. `decrypt` checks `pkey` and then `x509`, and calls `pkcs7_decrypt`. `sign` checks only `pkey`, and calls `pkcs7_sign1` when a stack is set and `pkcs7_sign0` otherwise. `verify` checks `x509_stack` and then `x509_store`, and calls `pkcs7_verify1` for detached content and `pkcs7_verify0` otherwise. These four turn a `None` result into `SMIME_Error` with OpenSSL's error text. `write` checks no slot: it calls the single-part or the multipart writer, by whether detached content is given, and returns the native result without raising. The model is the class `Smime.SMIME`. Its fields have `Option` types and absent means "attribute not set". The operations have no `modifies` clause, so Dafny checks that they change no slot.
- **`M2Crypto/util.py`**: `h2b` (hex decoding with an optional `0x` prefix), `pkcs5_pad` (section 6.1.1 of RFC 8018), `pkcs7_pad` (section 6.3 of RFC 5652) and `octx_to_num` (OS2IP, section 4.2 of RFC 8017). The source writes `h2b` and `octx_to_num` as loops, so they are methods with loop invariants. Each is proved equal to a recursive specification function (`HexDecode`, `Os2ip`), and lemmas state the properties of those functions. The two padding routines are single expressions, so they are functions with contracts. `Pkcs7Unpad` is a reference inverse written from RFC 5652, and both padding routines are proved to round-trip through it.
- **`M2Crypto/SSL/Context.py`**: the `_ctxmap` registry, with lazy creation of its singleton by `map()`; registration in `Context.__init__` and removal in `__del__`; `load_cert`, where a falsy keyfile defaults to the certificate file and a key mismatch raises; and the `allow_unknown_ca` flag. The class attribute `_ctxmap.singleton` is the field of a `Globals` object, which stands for the interpreter's module state.

OpenSSL and the loader modules `EVP` and `X509` are not part of this model. Their calls are fields of a `Native` datatype: total functions that return `None` where the native call fails. Operations take a `Native` value as a parameter. The handle that `ssl_ctx_new` returns is a parameter of `Context.New`. `getattr(m2, name)` is `Native.getattr`, which returns `Missing`, `NoneValue` or `Callable(result)`. Python exceptions are the `Py.Exception` datatype, and a call that can raise returns `Py.Result`.

Some of M2Crypto's behaviour is easy to misread; the model follows the code:

- `encrypt` does not reject an empty recipient stack (`Smime.EncryptToEmptyStack`).
- `sign` checks only `pkey`. A missing `x509` shows up as an `AttributeError` when `self.x509` is read, before `_ptr()` is called.
- Every provider failure in `encrypt`, `decrypt`, `sign` and `verify` becomes `SMIME_Error` carrying the text of OpenSSL's error queue (`Native.errorText`). There are no distinct verification error kinds. `load_pkcs7` instead raises `Err.get_error()` itself, a `str`, which Python 2.6 and 2.7 turn into a `TypeError`. A failing `EVP.load_key` or `X509.load_cert` in `load_key` raises that loader's own error (`OpenSslError`). `write` raises nothing and returns the native result.
- An unknown cipher or protocol name raises `AttributeError` from `getattr`. `ValueError` is raised only when the attribute exists and is `None`.
- `pkcs7_pad` is total in the model. A block length of 0 gives `ZeroDivisionError`, and a negative one gives the `ValueError` that `chr` raises for a negative count under Python's floor `%`. So no `requires` excludes those inputs.
- `h2b` follows the `int(x, 16)` of Python 2.6 and 2.7, which accepts trailing whitespace. A slice such as `"f "` decodes to 15, and a slice of whitespace only is rejected.

## Model

| member | source | states |
|---|---|---|
| `Smime.NewPkcs7` | M2Crypto/SMIME.py:24-30 | a given handle is kept with the caller's ownership flag; with no handle, a fresh `pkcs7_new` structure is owned by Python |
| `Smime.NewCipher` | M2Crypto/SMIME.py:57-61 | a missing m2 attribute raises AttributeError(algo) first; a None attribute raises ValueError('unknown cipher', algo); otherwise the cipher is what calling the attribute returns (each direction of each case) |
| `Smime.LoadPkcs7` | M2Crypto/SMIME.py:40-52 | fails with the TypeError of raising OpenSSL's error text exactly when the file cannot be opened or the parse returns no PKCS7; otherwise the PKCS7 is owned and the detached stream is present (an owned BIO) exactly when the parser returned one |
| `Smime.SMIME.constructor` | M2Crypto/SMIME.py:71 | a new object has none of the five slots |
| `Smime.SMIME.LoadKey` | M2Crypto/SMIME.py:72-76 | a certfile of None means the key file is read for the certificate too; a failed key load changes nothing; a failed certificate load keeps the new key and the old certificate slot; the other three slots are untouched |
| `Smime.SMIME.SetX509Stack` | M2Crypto/SMIME.py:78-80 | sets the stack slot only |
| `Smime.SMIME.SetX509Store` | M2Crypto/SMIME.py:82-84 | sets the store slot only |
| `Smime.SMIME.SetCipher` | M2Crypto/SMIME.py:86-88 | sets the cipher slot only |
| `Smime.SMIME.UnsetKey` | M2Crypto/SMIME.py:90-92 | removes pkey and then x509; AttributeError('pkey') with nothing changed when pkey is absent; AttributeError('x509') after pkey is already gone when only x509 is absent |
| `Smime.SMIME.UnsetX509Stack` | M2Crypto/SMIME.py:94-95 | clears the stack slot; AttributeError when it was absent; other slots untouched |
| `Smime.SMIME.UnsetX509Store` | M2Crypto/SMIME.py:97-98 | clears the store slot; AttributeError when it was absent; other slots untouched |
| `Smime.SMIME.UnsetCipher` | M2Crypto/SMIME.py:100-101 | clears the cipher slot; AttributeError when it was absent; other slots untouched |
| `Smime.SMIME.Encrypt` | M2Crypto/SMIME.py:103-111 | "no cipher" takes precedence over "no recipient certs"; otherwise pkcs7_encrypt receives the stack, data, cipher and flags unchanged; None becomes SMIME_Error; success is an owned PKCS7; no slot changes |
| `Smime.SMIME.Decrypt` | M2Crypto/SMIME.py:113-121 | "no private key" before "no certificate"; otherwise pkcs7_decrypt's blob, with None becoming SMIME_Error; no slot changes |
| `Smime.SMIME.Sign` | M2Crypto/SMIME.py:123-137 | only pkey is checked; with a stack, pkcs7_sign1 is called, otherwise pkcs7_sign0; a missing certificate is an AttributeError; None becomes SMIME_Error; success is an owned PKCS7; no slot changes |
| `Smime.SMIME.Verify` | M2Crypto/SMIME.py:139-152 | "no signer certs" before "no x509 cert store"; absent content calls pkcs7_verify0, present content calls pkcs7_verify1; None becomes SMIME_Error; no slot changes |
| `Smime.SMIME.Write` | M2Crypto/SMIME.py:157-162 | without detached content, smime_write_pkcs7; with it, the multipart writer; the native result is returned; no slot is consulted |
| `Smime.SignAfterUnsetKey` | M2Crypto/SMIME.py:90-92 | after load_key and unset_key on a fresh object, both sign and decrypt fail with "no private key", whether or not the key loaded |
| `Smime.EncryptToEmptyStack` | M2Crypto/SMIME.py:103-111 | with a resolvable cipher, an empty recipient stack is passed to OpenSSL unchecked; with an unresolvable cipher name, encrypt reports "no cipher" |
| `Smime.SignWithCombinedKeyFile` | M2Crypto/SMIME.py:72-76 | with the key and certificate loaded from one file, sign calls pkcs7_sign0 with both; a failed key load gives "no private key", a failed certificate load gives AttributeError |
| `Util.PyMod` | M2Crypto/util.py:25 | Python's `%`: a - r is a multiple of b, and r lies in [0, b) for a positive divisor and in (b, 0] for a negative one, which fixes r to Python's value |
| `Util.SliceValueAccepts` | M2Crypto/util.py:13-14 | `int('0x' + slice, 16)` accepts exactly a hex digit followed by nothing, a second hex digit or whitespace; two digits give the byte with those high and low nibbles, and a digit alone or before whitespace gives that digit |
| `Util.H2b` | M2Crypto/util.py:7-16 | the loop's result is the decoding of the text after an optional leading "0x", or ValueError when a slice is not a hex number |
| `Util.HexDecodeLength` | M2Crypto/util.py:10-15 | one output byte per two input characters, rounded up |
| `Util.HexDecodeAt` | M2Crypto/util.py:13-15 | output byte k is the hexadecimal value of the k-th two-character slice |
| `Util.HexDecodeDefined` | M2Crypto/util.py:13-14 | decoding succeeds exactly when every slice is a hexadecimal number |
| `Util.Pkcs5Pad` | M2Crypto/util.py:18-20 | whatever blklen is: the output is a multiple of 8 long, 1 to 8 bytes longer than the input, starts with the input, and every appended byte equals the pad count |
| `Util.Pkcs7Pad` | M2Crypto/util.py:22-26 | succeeds exactly for 1 <= blklen <= 255 (ValueError above 255, ZeroDivisionError at 0, chr's ValueError below 0); the output is a multiple of blklen long, 1 to blklen bytes longer than the input, starts with the input, and every appended byte equals the pad count |
| `Util.Pkcs7PadUnpad` | M2Crypto/util.py:25-26 | removing padding as RFC 5652 section 6.3 describes recovers the data from pkcs7_pad's output |
| `Util.Pkcs5PadUnpad` | M2Crypto/util.py:18-20 | removing 8-octet padding recovers the data from pkcs5_pad's output |
| `Util.Pkcs5IsPkcs7Of8` | M2Crypto/util.py:18-26 | pkcs5_pad with any blklen equals pkcs7_pad with block length 8 |
| `Util.OctxToNum` | M2Crypto/util.py:56-61 | the loop computes OS2IP of the octets |
| `Util.Os2ipAppend` | M2Crypto/util.py:56-61 | appending byte b to x gives 256·v(x) + b |
| `Util.Os2ipBound` | M2Crypto/util.py:56-61 | the value of n octets is below 256^n (so the empty string gives 0) |
| `Util.HexDecodeValue` | M2Crypto/util.py:7-16 | an even number of hex digits decodes, and the decoded bytes read big-endian equal the digits' base-16 value |
| `Util.H2bThenOctxToNum` | M2Crypto/util.py:56-61 | octx_to_num(h2b(s)) is the base-16 value of s's digits, after an optional "0x" |
| `SslContext.CtxMap.constructor` | M2Crypto/SSL/Context.py:12-13 | a new registry is empty |
| `SslContext.CtxMap.Get` | M2Crypto/SSL/Context.py:15-16 | returns the registered context; KeyError for an unregistered handle |
| `SslContext.CtxMap.Set` | M2Crypto/SSL/Context.py:18-19 | binds the key to the value; other keys unchanged |
| `SslContext.CtxMap.Del` | M2Crypto/SSL/Context.py:21-22 | removes exactly that key; KeyError with nothing changed when it is absent |
| `SslContext.Globals.constructor` | M2Crypto/SSL/Context.py:11 | the singleton starts as None |
| `SslContext.Globals.Map` | M2Crypto/SSL/Context.py:24-27 | creates an empty registry only when none exists, and otherwise returns the existing one; the contents are unchanged |
| `SslContext.MapTwice` | M2Crypto/SSL/Context.py:24-27 | two calls of map() return the same object |
| `SslContext.Context.Register` | M2Crypto/SSL/Context.py:35-37 | the flag starts at 0, an existing registry object is kept, and the registry gains exactly the entry handle ↦ this context |
| `SslContext.Context.New` | M2Crypto/SSL/Context.py:31-37 | the protocol defaults to "sslv23"; an existing registry object is kept; a missing `<protocol>_method` raises AttributeError and a None one raises ValueError("no such protocol ..."), with the registry unchanged in both cases; otherwise a fresh context with flag 0 is registered under its handle |
| `SslContext.Context.Del` | M2Crypto/SSL/Context.py:39-41 | keeps an existing registry object and removes exactly this context's handle from the registry; KeyError with the registry unchanged when it is not registered |
| `SslContext.Context.LoadCert` | M2Crypto/SSL/Context.py:43-50 | a falsy keyfile (None or "") means the certificate file supplies the key; the call succeeds exactly when OpenSSL's key check passes, and otherwise raises ValueError('public/private key mismatch') |
| `SslContext.Context.SetAllowUnknownCa` | M2Crypto/SSL/Context.py:67-68 | stores the flag |
| `SslContext.Context.GetAllowUnknownCa` | M2Crypto/SSL/Context.py:70-71 | returns the stored flag |
| `SslContext.ContextLifecycle` | M2Crypto/SSL/Context.py:31-41 | in a fresh interpreter: construction registers the context, the flag reads 0 and then the last value set, its handle looks up to it, and an explicit `__del__()` call empties the registry |
| `SslContext.RegisteredInEarlierMap` | M2Crypto/SSL/Context.py:24-37 | a registry obtained from map() before `Context()` is constructed with the default protocol finds the new context under its handle |

## Left out

- The OpenSSL primitives (signing, digesting, enveloping, chain validation, PKCS#7 and S/MIME encoding) and the loaders `EVP.load_key` and `X509.load_cert` are not part of this model. They are the possibly-failing functions of `Smime.Native` and `SslContext.Native`.
- Native calls are modelled as deterministic functions of their arguments. BIO read positions, freshly allocated handles and the changing contents of OpenSSL's error queue are not modelled, and no property of repeated calls is claimed.
- The native values of the `PKCS7_*` flag constants (M2Crypto/SMIME.py:12-20): flags are an opaque `int`, passed through unchanged.
- The native frees in `PKCS7.__del__` and `Context.__del__`, and `bio_free` in `load_pkcs7`: memory management with no observable effect in the model. `Pkcs7.Owned` records when the destructor would free.
- The `isinstance` assertions in `set_x509_stack`, `set_x509_store`, `set_cipher`, `verify` and `write`: Dafny's types enforce them.
- `save_certs` is a no-op (`pass`) in the source.
- Python attribute values that are falsy but not None are not modelled. So `Cipher`'s `not cipher` test and `Context`'s `is None` test agree in the model.
- `h2b` does not model the exact text of the `ValueError` raised by `string.atoi`.
- Util.H2b: follows Python 2.6 and 2.7. Up to Python 2.5, `string.atoi("0x ", 16)` gives 0, so a whitespace-only slice decodes to a zero byte (`h2b("ab ")` is `"\xab\x00"`) where the model raises ValueError.
- `M2Crypto/Err.py` is not part of this model. `Err.get_error()` is taken to return the error text as a `str`, since `encrypt` passes it as `SMIME_Error`'s message (M2Crypto/SMIME.py:110).
- Smime.LoadPkcs7: follows Python 2.6 and 2.7. Up to Python 2.5, `raise Err.get_error()` raises the error text itself as a string exception; the model gives `TypeError`.
- The native side effects of `load_cert` are not modelled: the passphrase callback, and `ssl_ctx_use_cert` and `ssl_ctx_use_privkey`, whose results the source ignores. `SslContext.Native.checkPrivkey` stands for the check after both loads.
- The handle returned by `ssl_ctx_new` is taken as given. The source does not check it for failure, and the native allocator is not modelled.
- Exceptions raised inside `__del__` are reported by Python and otherwise ignored. The model returns them from `Context.Del`.
- When the garbage collector runs `Context.__del__`: the registry holds a reference to every registered context, so `__del__` does not run on its own while the entry exists. The model runs `Context.Del` only as an explicit call. Two calls by the collector are not modelled:
  - a `Context` whose `__init__` raised is never registered. When it is collected, `__del__` calls `map()` first, which creates the registry if none exists, and then fails on the unset `self.ctx`. The registry can therefore appear after a failed `Context.New`, although `Context.New` leaves `g.singleton` unchanged;
  - after an explicit `__del__()`, the context is no longer referenced by the registry, so the collector runs `__del__` again. That ends in a `KeyError`, which Python ignores, unless a newer context has been registered under the same native handle, reused after `ssl_ctx_free`. In that case the newer context's entry is removed.
- `load_client_ca`, `load_verify_info`, `get_verify_mode` and `get_verify_depth` are pass-throughs to OpenSSL. `set_verify`, `set_tmp_dh` and `set_info_callback` are too.
- `set_session_id_ctx`'s error path refers to `Err`, which is never imported in that file.
- `passphrase_callback` and `genparam_callback` do terminal I/O. `ssl_verify_callback` uses names that are never imported, and `ssl_verify_callback_stub` only returns 1.
- `M2Crypto/SSL/Cipher.py`, `M2Crypto/m2xmlrpclib.py` and the demo servers under `demo/` are not part of this model. They are native wrappers and network or concurrency plumbing.
- Concurrency: the model is sequential.
