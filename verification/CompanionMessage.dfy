/** The Companion message envelope and its OPACK dictionary form. */
module CompanionMessage {
  import opened Bytes
  import opened OpackValue
  import opened Wrappers

  // The keys `_i`, `_t`, `_x`, `_c`, `_em`, `_ec` and `_ed`.
  function KeyIdentifier(): Blob { [0x5F, 0x69] }
  function KeyType(): Blob { [0x5F, 0x74] }
  function KeyXid(): Blob { [0x5F, 0x78] }
  function KeyContent(): Blob { [0x5F, 0x63] }
  function KeyErrorMessage(): Blob { [0x5F, 0x65, 0x6D] }
  function KeyErrorCode(): Blob { [0x5F, 0x65, 0x63] }
  function KeyErrorDomain(): Blob { [0x5F, 0x65, 0x64] }

  datatype MessageType = Event | Request | Response {
    function Code(): u64 {
      match this
      case Event => 1
      case Request => 2
      case Response => 3
    }
  }

  function FromCode(code: u64): Option<MessageType> {
    if code == 1 then Some(Event) else if code == 2 then Some(Request) else if code == 3 then Some(Response) else None
  }

  /** An `_em` that is no string is rendered for the reader; the model keeps the value itself. */
  datatype ErrorText = Text(text: Blob) | Rendered(value: Value)

  datatype CommandError = CommandError(message: ErrorText, code: Option<u64>, domain: Option<Blob>)

  datatype Envelope = Envelope(identifier: Option<Blob>, messageType: Option<MessageType>, xid: Option<u32>,
                               content: Value, error: Option<CommandError>)

  datatype Error = NotADict | Rejected(command: Option<Blob>, cause: CommandError)

  function ToEntries(e: Envelope): seq<(Value, Value)> {
    (if e.identifier.Some? then [(Str(KeyIdentifier()), Str(e.identifier.value))] else [])
    + (if e.messageType.Some? then [(Str(KeyType()), Uint(e.messageType.value.Code()))] else [])
    + [(Str(KeyContent()), e.content)]
    + (if e.xid.Some? then [(Str(KeyXid()), Uint(e.xid.value))] else [])
  }

  function ToValue(e: Envelope): Value {
    Dict(ToEntries(e))
  }

  function ReadError(v: Value): Option<CommandError> {
    match Get(v, KeyErrorMessage())
    case None => None
    case Some(message) =>
      Some(CommandError(if message.Str? then Text(message.text) else Rendered(message),
                        GetU64(v, KeyErrorCode()), GetStr(v, KeyErrorDomain())))
  }

  function GetU64(v: Value, key: Blob): Option<u64> {
    var x :- Get(v, key);
    AsU64(x)
  }

  function GetStr(v: Value, key: Blob): Option<Blob> {
    var x :- Get(v, key);
    AsStr(x)
  }

  function ReadType(v: Value): Option<MessageType> {
    var code :- GetU64(v, KeyType());
    FromCode(code)
  }

  function ReadXid(v: Value): Option<u32> {
    var n :- GetU64(v, KeyXid());
    if n < U32_LIMIT then Some(n) else None
  }

  function ReadContent(v: Value): Value {
    match Get(v, KeyContent())
    case Some(content) => content
    case None => Dict([])
  }

  function FromValue(v: Value): Result<Envelope, Error> {
    if !v.Dict? then Err(NotADict)
    else Ok(Envelope(GetStr(v, KeyIdentifier()), ReadType(v), ReadXid(v), ReadContent(v), ReadError(v)))
  }

  function IntoResult(e: Envelope): Result<Envelope, Error> {
    match e.error
    case None => Ok(e)
    case Some(cause) => Err(Rejected(e.identifier, cause))
  }

  // ----- Laws -----------------------------------------------------------------------------

  lemma LookupAppend(a: seq<(Value, Value)>, b: seq<(Value, Value)>, key: Blob)
    ensures Lookup(a + b, key) == if Lookup(a, key).Some? then Lookup(a, key) else Lookup(b, key)
    decreases |a|
  {
    if a == [] {
      assert a + b == b;
    } else {
      assert (a + b)[1..] == a[1..] + b && (a + b)[0] == a[0];
      LookupAppend(a[1..], b, key);
    }
  }

  lemma LookupOne(k: Blob, v: Value, key: Blob)
    ensures Lookup([(Str(k), v)], key) == if k == key then Some(v) else None
  {
  }

  lemma KeysDiffer()
    ensures KeyIdentifier() != KeyType() && KeyIdentifier() != KeyContent() && KeyIdentifier() != KeyXid()
    ensures KeyType() != KeyContent() && KeyType() != KeyXid() && KeyContent() != KeyXid()
    ensures KeyErrorMessage() !in {KeyIdentifier(), KeyType(), KeyContent(), KeyXid()}
  {
    assert KeyIdentifier()[1] == 0x69 && KeyType()[1] == 0x74 && KeyContent()[1] == 0x63 && KeyXid()[1] == 0x78;
    assert |KeyErrorMessage()| == 3;
  }

  /** Which value each key of a serialised envelope holds. */
  lemma EntriesLookup(e: Envelope, key: Blob)
    requires key in {KeyIdentifier(), KeyType(), KeyContent(), KeyXid(), KeyErrorMessage()}
    ensures Lookup(ToEntries(e), key)
         == if key == KeyIdentifier() then (if e.identifier.Some? then Some(Str(e.identifier.value)) else None)
            else if key == KeyType() then (if e.messageType.Some? then Some(Uint(e.messageType.value.Code())) else None)
            else if key == KeyContent() then Some(e.content)
            else if key == KeyXid() then (if e.xid.Some? then Some(Uint(e.xid.value)) else None)
            else None
  {
    hide Lookup;
    KeysDiffer();
    var i: seq<(Value, Value)> := if e.identifier.Some? then [(Str(KeyIdentifier()), Str(e.identifier.value))] else [];
    var t: seq<(Value, Value)> := if e.messageType.Some? then [(Str(KeyType()), Uint(e.messageType.value.Code()))] else [];
    var c: seq<(Value, Value)> := [(Str(KeyContent()), e.content)];
    var x: seq<(Value, Value)> := if e.xid.Some? then [(Str(KeyXid()), Uint(e.xid.value))] else [];
    assert ToEntries(e) == i + t + c + x;
    LookupAppend(i + t + c, x, key);
    LookupAppend(i + t, c, key);
    LookupAppend(i, t, key);
    LookupNone(key);
    LookupOne(KeyContent(), e.content, key);
    if e.identifier.Some? {
      LookupOne(KeyIdentifier(), Str(e.identifier.value), key);
    }
    if e.messageType.Some? {
      LookupOne(KeyType(), Uint(e.messageType.value.Code()), key);
    }
    if e.xid.Some? {
      LookupOne(KeyXid(), Uint(e.xid.value), key);
    }
  }

  lemma LookupNone(key: Blob)
    ensures Lookup([], key) == None
  {
  }

  /** An envelope is read back from its dictionary, minus any error, which is never serialised. */
  lemma EnvelopeRoundTrip(e: Envelope)
    ensures FromValue(ToValue(e)) == Ok(e.(error := None))
  {
    hide Lookup, ToEntries;
    EntriesLookup(e, KeyIdentifier());
    EntriesLookup(e, KeyType());
    EntriesLookup(e, KeyContent());
    EntriesLookup(e, KeyXid());
    EntriesLookup(e, KeyErrorMessage());
    KeysDiffer();
  }

  function CanonEntries(entries: seq<(Value, Value)>): seq<(Value, Value)> {
    if entries == [] then [] else [(Canon(entries[0].0), Canon(entries[0].1))] + CanonEntries(entries[1..])
  }

  lemma {:induction false} CanonDict(entries: seq<(Value, Value)>)
    ensures PairUp(CanonItems(Flatten(entries))) == CanonEntries(entries)
  {
    hide Canon;
    if entries == [] {
    } else {
      CanonDict(entries[1..]);
      var flat := Flatten(entries);
      assert flat[1..][1..] == Flatten(entries[1..]);
      assert CanonItems(flat) == [Canon(flat[0]), Canon(flat[1])] + CanonItems(Flatten(entries[1..]));
      assert CanonItems(flat)[2..] == CanonItems(Flatten(entries[1..]));
    }
  }

  lemma {:induction false} CanonLookup(entries: seq<(Value, Value)>, key: Blob)
    ensures var r := Lookup(entries, key);
            Lookup(CanonEntries(entries), key) == if r.Some? then Some(Canon(r.value)) else None
  {
    if entries == [] {
    } else {
      CanonLookup(entries[1..], key);
      assert CanonEntries(entries)[1..] == CanonEntries(entries[1..]);
      assert Canon(entries[0].0) == Str(key) <==> entries[0].0 == Str(key);
    }
  }

  /** Travelling changes no key of a dictionary and makes each value canonical. */
  lemma CanonGet(v: Value, key: Blob)
    ensures Get(Canon(v), key) == if Get(v, key).Some? then Some(Canon(Get(v, key).value)) else None
  {
    if v.Dict? {
      CanonDict(v.entries);
      CanonLookup(v.entries, key);
    }
  }

  lemma CanonAccessors(v: Value)
    ensures AsU64(Canon(v)) == AsU64(v) && AsStr(Canon(v)) == AsStr(v)
  {
  }

  lemma CanonGetU64(v: Value, key: Blob)
    ensures GetU64(Canon(v), key) == GetU64(v, key)
  {
    hide Get, Canon;
    CanonGet(v, key);
    if Get(v, key).Some? {
      CanonAccessors(Get(v, key).value);
    }
  }

  lemma CanonGetStr(v: Value, key: Blob)
    ensures GetStr(Canon(v), key) == GetStr(v, key)
  {
    hide Get, Canon;
    CanonGet(v, key);
    if Get(v, key).Some? {
      CanonAccessors(Get(v, key).value);
    }
  }

  /**
   What a reader sees of any dictionary survives the wire: identifier, type and XID are
   unchanged, the content is canonical, and an error is reported exactly when it was there.
   */
  lemma ReadSurvivesWire(v: Value)
    requires v.Dict?
    ensures FromValue(v).Ok? && FromValue(Canon(v)).Ok?
    ensures var sent, received := FromValue(v).value, FromValue(Canon(v)).value;
            && received.identifier == sent.identifier
            && received.messageType == sent.messageType
            && received.xid == sent.xid
            && received.content == Canon(sent.content)
            && received.error.Some? == sent.error.Some?
  {
    hide Get;
    CanonGetStr(v, KeyIdentifier());
    CanonGetU64(v, KeyType());
    CanonGetU64(v, KeyXid());
    CanonGet(v, KeyContent());
    CanonGet(v, KeyErrorMessage());
    CanonOfEmptyDict();
  }

  lemma CanonOfEmptyDict()
    ensures Canon(Dict([])) == Dict([])
  {
    assert Flatten([]) == [];
    assert CanonItems([]) == [];
    assert PairUp([]) == [];
  }
}
