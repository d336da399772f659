/**
 The secret store: an initialisation vector followed by the encrypted secrets, cached by
 every object that has read or written the file.
*/
module SecretStore {
  import opened Prelude
  import opened SecretCodec

  /** What an object keeps of the file. */
  datatype Cache = Cache(iv: Option<Bytes>, raw: Option<Bytes>)

  datatype Op =
    | Get | GetKey(path: seq<string>)
    | Set(secrets: Json) | SetKey(path: seq<string>, value: Json) | Unset(path: seq<string>)
    | Init(random: Bytes)

  datatype Reply = Secrets(secrets: Json) | Found(found: Option<Json>) | Stored | Failed(error: Error)

  /** The file, the cache of an object, and what its caller is told. */
  datatype Effect = Effect(file: Option<Bytes>, cache: Cache, reply: Reply)

  function Head(data: Bytes): Bytes {
    if |data| < 16 then data else data[..16]
  }

  function Tail(data: Bytes): Bytes {
    if |data| < 16 then [] else data[16..]
  }

  /** The cache once it has been read, if there is anything to read. */
  function Loaded(file: Option<Bytes>, c: Cache): Result<Cache, Error>
    ensures Loaded(file, c).Ok? ==> Loaded(file, c).value.iv.Some? && Loaded(file, c).value.raw.Some?
  {
    if c.iv.Some? && c.raw.Some? then Ok(c)
    else if file.None? then Err(NotInitialized)
    else Ok(Cache(Some(Head(file.value)), Some(Tail(file.value))))
  }

  /** Encrypts with the cached vector, then writes both. */
  function Save(codec: Codec, file: Option<Bytes>, c: Cache, secrets: Json): Effect
    requires c.iv.Some?
  {
    match Encrypt(codec, secrets, c.iv.value)
    case Err(e) => Effect(file, c, Failed(e))
    case Ok(raw) => Effect(Some(c.iv.value + raw), c.(raw := Some(raw)), Stored)
  }

  /** An operation on the secrets `v` just read. */
  function Use(codec: Codec, file: Option<Bytes>, c: Cache, v: Json, op: Op): Effect
    requires c.iv.Some?
  {
    match op
    case Get => Effect(file, c, Secrets(v))
    case GetKey(path) => Effect(file, c, Found(Lookup(v, path)))
    case SetKey(path, x) => Save(codec, file, c, Put(v, path, x))
    case Unset(path) => Save(codec, file, c, Remove(v, path))
    case Set(secrets) => Save(codec, file, c, secrets)
    case Init(_) => Effect(file, c, Failed(AlreadyCreated))
  }

  /** One operation of one object. */
  function Step(codec: Codec, file: Option<Bytes>, c: Cache, op: Op): Effect {
    if op.Init? then
      if file.Some? then Effect(file, c, Failed(AlreadyCreated)) else Effect(Some(op.random), c, Stored)
    else
      match Loaded(file, c)
      case Err(e) => Effect(file, c, Failed(e))
      case Ok(now) =>
        if op.Set? then Save(codec, file, now, op.secrets)
        else
          match Decrypt(codec, now.raw.value, now.iv.value)
          case Err(e) => Effect(file, now, Failed(e))
          case Ok(v) => Use(codec, file, now, v, op)
  }

  class File {
    var content: Option<Bytes>

    constructor (content: Option<Bytes>)
      ensures this.content == content
    {
      this.content := content;
    }
  }

  class Store {
    const file: File
    const codec: Codec
    var iv: Option<Bytes>
    var raw: Option<Bytes>

    function Cached(): Cache
      reads this
    {
      Cache(iv, raw)
    }

    constructor (file: File, codec: Codec)
      ensures this.file == file && this.codec == codec && Cached() == Cache(None, None)
    {
      this.file, this.codec, iv, raw := file, codec, None, None;
    }

    /** `_read` and `_readSync` */
    method Read() returns (r: Result<bool, Error>)
      modifies this
      ensures match Loaded(old(file.content), old(Cached()))
        case Err(e) => r == Err(e) && Cached() == old(Cached())
        case Ok(now) => r == Ok(true) && Cached() == now
    {
      if iv.Some? && raw.Some? {
        return Ok(true);
      }
      if file.content.None? {
        return Err(NotInitialized);
      }
      var data := file.content.value;
      iv := Some(Head(data));
      raw := Some(Tail(data));
      return Ok(true);
    }

    /** `get` and `getSync` without a key */
    method GetAll() returns (r: Result<Json, Error>)
      modifies this
      ensures Effect(file.content, Cached(), if r.Ok? then Secrets(r.value) else Failed(r.error))
        == Step(codec, old(file.content), old(Cached()), Get)
    {
      var read := Read();
      if read.Err? {
        return Err(read.error);
      }
      r := Decrypt(codec, raw.value, iv.value);
    }

    /** `get` and `getSync` with a key */
    method GetValue(path: seq<string>) returns (r: Result<Option<Json>, Error>)
      modifies this
      ensures Effect(file.content, Cached(), if r.Ok? then Found(r.value) else Failed(r.error))
        == Step(codec, old(file.content), old(Cached()), GetKey(path))
    {
      var secrets := GetAll();
      r := if secrets.Ok? then Ok(Lookup(secrets.value, path)) else Err(secrets.error);
    }

    /** `set` with the whole of the secrets */
    method SetAll(secrets: Json) returns (r: Result<bool, Error>)
      modifies this, file
      ensures Effect(file.content, Cached(), if r.Ok? then Stored else Failed(r.error))
        == Step(codec, old(file.content), old(Cached()), Set(secrets))
    {
      var read := Read();
      if read.Err? {
        return Err(read.error);
      }
      var text := Encrypt(codec, secrets, iv.value);
      if text.Err? {
        return Err(text.error);
      }
      raw := Some(text.value);
      file.content := Some(iv.value + text.value);
      return Ok(true);
    }

    /** `set` with a key */
    method SetValue(path: seq<string>, value: Json) returns (r: Result<bool, Error>)
      modifies this, file
      ensures Effect(file.content, Cached(), if r.Ok? then Stored else Failed(r.error))
        == Step(codec, old(file.content), old(Cached()), SetKey(path, value))
    {
      var secrets := GetAll();
      if secrets.Err? {
        return Err(secrets.error);
      }
      r := SetAll(Put(secrets.value, path, value));
    }

    /** `unset` */
    method UnsetValue(path: seq<string>) returns (r: Result<bool, Error>)
      modifies this, file
      ensures Effect(file.content, Cached(), if r.Ok? then Stored else Failed(r.error))
        == Step(codec, old(file.content), old(Cached()), Unset(path))
    {
      var secrets := GetAll();
      if secrets.Err? {
        return Err(secrets.error);
      }
      r := SetAll(Remove(secrets.value, path));
    }

    /** `init` writes a vector and no secrets, and caches nothing. */
    method Create(random: Bytes) returns (r: Result<bool, Error>)
      modifies file
      ensures Effect(file.content, Cached(), if r.Ok? then Stored else Failed(r.error))
        == Step(codec, old(file.content), old(Cached()), Init(random))
    {
      if file.content.Some? {
        return Err(AlreadyCreated);
      }
      file.content := Some(random);
      return Ok(true);
    }
  }
}
