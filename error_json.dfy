/** The JSON form of an error (Railway/ErrorJsonConverter.cs). A leaf is
    written as one object `{"type": …, "msg": …, <extension pairs>}`, an
    aggregate as an array of such objects; reading gives back expected
    errors (or exceptional ones through the exceptional converter).

    The reader and the writer work on the token stream of System.Text.Json's
    `Utf8JsonReader` and `Utf8JsonWriter`; the text encoding of the tokens
    is below this model. */
module ErrorJson {
  import opened Prelude
  import opened Text
  import opened Errors

  /** `JsonTokenType`, with the payload of the two tokens whose text the
      converter reads. */
  datatype Token =
    | StartObject
    | EndObject
    | StartArray
    | EndArray
    | PropertyName(name: string)
    | String(text: string)
    | Number
    | True
    | False
    | Null
    | Comment

  /** The triple `ReadOne` builds: type, message and extension data. */
  datatype ErrorInfo = ErrorInfo(errorType: string, message: string, extensionData: map<string, string>)

  /** What `ReadOne` starts from: type "error", empty message, no extension data. */
  const DefaultInfo: ErrorInfo := ErrorInfo("error", "", map[])

  const UnexpectedToken: string := "Unexpected JSON token."
  const UnableToDeserialize: string := "Unable to deserialize Error type."

  /** The token a reader that has read `consumed` tokens is on; `None` is
      `JsonTokenType.None`, the state before the first read. */
  function Current(tokens: seq<Token>, consumed: nat): Option<Token>
    requires consumed <= |tokens|
  {
    if consumed == 0 then None else Some(tokens[consumed - 1])
  }

  // ---------------------------------------------------------------------
  // The reader
  // ---------------------------------------------------------------------

  /** `Utf8JsonReader`, a cursor over a token stream that the converter
      advances in place (it is passed by `ref`). */
  class JsonReader {
    const tokens: seq<Token>
    var consumed: nat

    predicate Valid()
      reads this
    {
      consumed <= |tokens|
    }

    constructor (tokens: seq<Token>, consumed: nat)
      requires consumed <= |tokens|
      ensures Valid() && this.tokens == tokens && this.consumed == consumed
    {
      this.tokens := tokens;
      this.consumed := consumed;
    }

    function TokenType(): Option<Token>
      reads this
      requires Valid()
    {
      Current(tokens, consumed)
    }

    /** `Read()`: moves to the next token; at the end of the stream it
        returns false and stays on the token it was on. */
    method Read() returns (more: bool)
      requires Valid()
      modifies this
      ensures Valid()
      ensures more <==> old(consumed) < |tokens|
      ensures consumed == if more then old(consumed) + 1 else old(consumed)
    {
      more := consumed < |tokens|;
      if more {
        consumed := consumed + 1;
      }
    }
  }

  // ---------------------------------------------------------------------
  // What reading one object means
  // ---------------------------------------------------------------------

  /** The property names that set the type: "type" in any letter case. */
  predicate IsTypeName(name: string) {
    name == "type" || EqualsIgnoreCase(name, "type")
  }

  /** The property names that set the message: "msg" in any letter case. */
  predicate IsMessageName(name: string) {
    name == "msg" || EqualsIgnoreCase(name, "msg")
  }

  /** A property name that lands in the extension data. */
  predicate IsExtensionName(name: string) {
    name != "" && !IsTypeName(name) && !IsMessageName(name)
  }

  /** One property with a non-empty string value: it sets the type, the
      message, or adds an extension pair. The extension-data builder's `Add`
      throws when the key is already there with a different value. */
  function Assign(info: ErrorInfo, name: string, value: string): (r: Completion<ErrorInfo>)
    ensures r.Threw? <==> IsExtensionName(name) && name in info.extensionData && info.extensionData[name] != value
    ensures r.Threw? ==> r.fault == DuplicateKey(name)
    ensures r.Returned? && IsExtensionName(name) ==>
      r.value == info.(extensionData := info.extensionData[name := value])
    ensures r.Returned? && !IsExtensionName(name) ==>
      r.value.extensionData == info.extensionData
    ensures IsTypeName(name) ==> r == Returned(info.(errorType := value))
    ensures !IsTypeName(name) && IsMessageName(name) ==> r == Returned(info.(message := value))
    ensures name == "" ==> r == Returned(info)
  {
    if IsTypeName(name) then Returned(info.(errorType := value))
    else if IsMessageName(name) then Returned(info.(message := value))
    else if name != "" then
      if name in info.extensionData && info.extensionData[name] != value then Threw(DuplicateKey(name))
      else Returned(info.(extensionData := info.extensionData[name := value]))
    else Returned(info)
  }

  /** The inner `while (TokenType == Comment) Read()`: from the token at
      `consumed`, the position of the first token that is not a comment.
      When the stream ends on a comment, `Read` keeps failing and the loop
      never ends. */
  function SkipComments(tokens: seq<Token>, consumed: nat): (r: Completion<nat>)
    requires 0 < consumed <= |tokens|
    ensures r.Returned? ==> consumed <= r.value <= |tokens| && tokens[r.value - 1] != Comment
    ensures r.Returned? ==> forall k | consumed - 1 <= k < r.value - 1 :: tokens[k] == Comment
    ensures r.Threw? ==> r.fault == Diverges && forall k | consumed - 1 <= k < |tokens| :: tokens[k] == Comment
    decreases |tokens| - consumed
  {
    if tokens[consumed - 1] != Comment then Returned(consumed)
    else if consumed == |tokens| then Threw(Diverges)
    else SkipComments(tokens, consumed + 1)
  }

  /** Where a read stopped and what it built. */
  datatype Outcome = Outcome(info: ErrorInfo, consumed: nat)

  /** One property, the reader sitting on its `PropertyName`: a null value
      is skipped, comments before the value are skipped, a value that is not
      a string throws, an empty string is skipped, and any other value goes
      through `Assign`. */
  function ReadProperty(tokens: seq<Token>, consumed: nat, name: string, info: ErrorInfo): (r: Completion<Outcome>)
    requires 0 < consumed <= |tokens|
    ensures r.Returned? ==> consumed <= r.value.consumed <= |tokens|
  {
    var atValue := if consumed < |tokens| then consumed + 1 else consumed;
    if tokens[atValue - 1] == Null then Returned(Outcome(info, atValue))
    else
      match SkipComments(tokens, atValue)
      case Threw(f) => Threw(f)
      case Returned(at) =>
        if !tokens[at - 1].String? then Threw(Json(UnableToDeserialize))
        else if tokens[at - 1].text == "" then Returned(Outcome(info, at))
        else (
          match Assign(info, name, tokens[at - 1].text)
          case Threw(f) => Threw(f)
          case Returned(next) => Returned(Outcome(next, at)))
  }

  /** `ReadOne` from a reader that has read `consumed` tokens, with `info`
      built so far: it returns at the end of the stream or after the
      `EndObject`, skips comments, reads properties, and throws on any
      other token. */
  function ReadOneFrom(tokens: seq<Token>, consumed: nat, info: ErrorInfo): (r: Completion<Outcome>)
    requires consumed <= |tokens|
    ensures r.Returned? ==> consumed <= r.value.consumed <= |tokens|
    ensures r.Returned? && r.value.consumed < |tokens| ==>
      0 < r.value.consumed && tokens[r.value.consumed - 1] == EndObject
    decreases |tokens| - consumed
  {
    if consumed == |tokens| then Returned(Outcome(info, consumed))
    else
      match tokens[consumed]
      case PropertyName(name) => (
        match ReadProperty(tokens, consumed + 1, name, info)
        case Threw(f) => Threw(f)
        case Returned(o) => ReadOneFrom(tokens, o.consumed, o.info))
      case Comment => ReadOneFrom(tokens, consumed + 1, info)
      case EndObject => Returned(Outcome(info, consumed + 1))
      case _ => Threw(Json(UnableToDeserialize))
  }

  /** The rules `ReadOne` applies at the token it is on, for every stream.
      The end of the stream and an `EndObject` end the object; a comment is
      passed over; a property whose value is null is skipped whole; a
      property whose value is not a string, a null or a comment throws, and
      so does a property name that ends the stream; any other token throws. */
  lemma ReadOneRules(tokens: seq<Token>, pos: nat, info: ErrorInfo)
    requires pos <= |tokens|
    ensures pos == |tokens| ==> ReadOneFrom(tokens, pos, info) == Returned(Outcome(info, pos))
    ensures pos < |tokens| && tokens[pos] == EndObject ==>
              ReadOneFrom(tokens, pos, info) == Returned(Outcome(info, pos + 1))
    ensures pos < |tokens| && tokens[pos] == Comment ==>
              ReadOneFrom(tokens, pos, info) == ReadOneFrom(tokens, pos + 1, info)
    ensures pos + 1 < |tokens| && tokens[pos].PropertyName? && tokens[pos + 1] == Null ==>
              ReadOneFrom(tokens, pos, info) == ReadOneFrom(tokens, pos + 2, info)
    ensures pos + 1 < |tokens| && tokens[pos].PropertyName? && !tokens[pos + 1].String?
            && tokens[pos + 1] != Null && tokens[pos + 1] != Comment ==>
              ReadOneFrom(tokens, pos, info) == Threw(Json(UnableToDeserialize))
    ensures pos + 1 == |tokens| && tokens[pos].PropertyName? ==>
              ReadOneFrom(tokens, pos, info) == Threw(Json(UnableToDeserialize))
    ensures pos < |tokens| && !tokens[pos].PropertyName? && tokens[pos] != Comment && tokens[pos] != EndObject ==>
              ReadOneFrom(tokens, pos, info) == Threw(Json(UnableToDeserialize))
  {
  }

  /** A comment between a property name and its value is passed over; the
      null test comes before the comments, so a null after a comment is not
      skipped but refused as a value that is not a string. */
  lemma CommentBeforeValue(tokens: seq<Token>, pos: nat, name: string, info: ErrorInfo)
    requires pos + 2 < |tokens| && tokens[pos] == PropertyName(name) && tokens[pos + 1] == Comment
    ensures tokens[pos + 2] == Null ==> ReadOneFrom(tokens, pos, info) == Threw(Json(UnableToDeserialize))
    ensures tokens[pos + 2] == String("") ==> ReadOneFrom(tokens, pos, info) == ReadOneFrom(tokens, pos + 3, info)
    ensures tokens[pos + 2].String? && tokens[pos + 2].text != "" ==>
              ReadOneFrom(tokens, pos, info) ==
              match Assign(info, name, tokens[pos + 2].text)
              case Returned(next) => ReadOneFrom(tokens, pos + 3, next)
              case Threw(f) => Threw(f)
  {
    assert SkipComments(tokens, pos + 2) == SkipComments(tokens, pos + 3);
  }

  /** The triple a completed read yields, or the fault it threw. */
  function InfoOf(c: Completion<Outcome>): Completion<ErrorInfo> {
    match c
    case Returned(o) => Returned(o.info)
    case Threw(f) => Threw(f)
  }

  /** The `PropertyName` case of `ReadOne`'s loop. */
  method ReadPropertyValue(reader: JsonReader, name: string, info: ErrorInfo) returns (r: Completion<ErrorInfo>)
    requires reader.Valid() && 0 < reader.consumed
    modifies reader
    ensures reader.Valid()
    ensures r == InfoOf(ReadProperty(reader.tokens, old(reader.consumed), name, info))
    ensures r.Returned? ==> reader.consumed == ReadProperty(reader.tokens, old(reader.consumed), name, info).value.consumed
  {
    var more := reader.Read();
    ghost var atValue := reader.consumed;
    if reader.TokenType() == Some(Null) {
      return Returned(info);
    }
    while reader.TokenType() == Some(Comment)
      invariant reader.Valid() && atValue <= reader.consumed
      invariant SkipComments(reader.tokens, reader.consumed) == SkipComments(reader.tokens, atValue)
      decreases |reader.tokens| - reader.consumed
    {
      more := reader.Read();
      if !more {
        return Threw(Diverges);
      }
    }
    var token := reader.tokens[reader.consumed - 1];
    if !token.String? {
      return Threw(Json(UnableToDeserialize));
    }
    var value := token.text;
    if value == "" {
      return Returned(info);
    }
    if IsTypeName(name) {
      r := Returned(info.(errorType := value));
    } else if IsMessageName(name) {
      r := Returned(info.(message := value));
    } else if name != "" {
      if name in info.extensionData && info.extensionData[name] != value {
        return Threw(DuplicateKey(name));
      }
      r := Returned(info.(extensionData := info.extensionData[name := value]));
    } else {
      r := Returned(info);
    }
  }

  /** `ReadOne`: the reader sits on the `StartObject`. */
  method ReadOne(reader: JsonReader) returns (r: Completion<ErrorInfo>)
    requires reader.Valid()
    modifies reader
    ensures reader.Valid()
    ensures r == InfoOf(ReadOneFrom(reader.tokens, old(reader.consumed), DefaultInfo))
    ensures r.Returned? ==> reader.consumed == ReadOneFrom(reader.tokens, old(reader.consumed), DefaultInfo).value.consumed
  {
    ghost var goal := ReadOneFrom(reader.tokens, reader.consumed, DefaultInfo);
    var info := DefaultInfo;
    while true
      invariant reader.Valid()
      invariant ReadOneFrom(reader.tokens, reader.consumed, info) == goal
      decreases |reader.tokens| - reader.consumed
    {
      var more := reader.Read();
      if !more {
        return Returned(info);
      }
      match reader.tokens[reader.consumed - 1]
      case PropertyName(name) =>
        var property := ReadPropertyValue(reader, name, info);
        if property.Threw? {
          return property;
        }
        info := property.value;
      case Comment =>
      case EndObject =>
        return Returned(info);
      case _ =>
        return Threw(Json(UnableToDeserialize));
    }
  }

  // ---------------------------------------------------------------------
  // Aggregates and the converters' entry points
  // ---------------------------------------------------------------------

  /** `ToExpectedError`: the triple as an expected error. */
  function ToExpectedError(info: ErrorInfo): (e: Error)
    ensures e.ExpectedError? && IsExpected(e) && Flat(e) && Count(e) == 1
    ensures Type(e) == info.errorType && Message(e) == info.message && ExtensionData(e) == info.extensionData
  {
    ExpectedError(info.errorType, info.message, info.extensionData)
  }

  /** `ToExceptionalError`: the triple as an exceptional error. */
  function ToExceptionalError(info: ErrorInfo): (e: Error)
    ensures e.ExceptionalError? && IsExeptional(e) && Flat(e) && Count(e) == 1
    ensures Type(e) == info.errorType && Message(e) == info.message && ExtensionData(e) == info.extensionData
  {
    ExceptionalError(info.errorType, info.message, info.extensionData)
  }

  /** `ReadMany` from a reader that has read `consumed` tokens, with
      `errors` read so far: every `StartObject` that follows starts one
      expected error, every other token is passed over, to the end of the
      stream. */
  function ReadManyFrom(tokens: seq<Token>, consumed: nat, errors: seq<Error>): (r: Completion<seq<Error>>)
    requires consumed <= |tokens|
    ensures r.Returned? ==> |errors| <= |r.value| && r.value[..|errors|] == errors
    ensures r.Returned? ==> forall i | |errors| <= i < |r.value| :: r.value[i].ExpectedError?
    decreases |tokens| - consumed
  {
    if consumed == |tokens| then Returned(errors)
    else if tokens[consumed] == StartObject then
      match ReadOneFrom(tokens, consumed + 1, DefaultInfo)
      case Threw(f) => Threw(f)
      case Returned(o) => ReadManyFrom(tokens, o.consumed, errors + [ToExpectedError(o.info)])
    else ReadManyFrom(tokens, consumed + 1, errors)
  }

  /** `ReadMany`: the reader sits on the `StartArray`; the errors read become
      an aggregate as they are, through the non-flattening constructor. */
  method ReadMany(reader: JsonReader) returns (r: Completion<Error>)
    requires reader.Valid()
    modifies reader
    ensures reader.Valid()
    ensures match ReadManyFrom(reader.tokens, old(reader.consumed), [])
      case Returned(es) => r == Returned(ManyErrors(es)) && reader.consumed == |reader.tokens|
      case Threw(f) => r == Threw(f)
  {
    ghost var goal := ReadManyFrom(reader.tokens, reader.consumed, []);
    var errors := [];
    while true
      invariant reader.Valid()
      invariant ReadManyFrom(reader.tokens, reader.consumed, errors) == goal
      decreases |reader.tokens| - reader.consumed
    {
      var more := reader.Read();
      if !more {
        return Returned(ManyErrors(errors));
      }
      if reader.TokenType() == Some(StartObject) {
        var one := ReadOne(reader);
        if one.Threw? {
          return Threw(one.fault);
        }
        errors := errors + [ToExpectedError(one.value)];
      }
    }
  }

  /** `ErrorJsonConverter.Read`: an object is one expected error, an array
      an aggregate, null (or nothing read yet) is null, anything else throws. */
  function ReadSpec(tokens: seq<Token>, consumed: nat): (r: Completion<Option<Error>>)
    requires consumed <= |tokens|
    ensures r.Returned? && r.value.Some? ==> IsExpected(r.value.value) && Flat(r.value.value)
    ensures Current(tokens, consumed) == None || Current(tokens, consumed) == Some(Null) ==> r == Returned(None)
    ensures Current(tokens, consumed).Some? && Current(tokens, consumed).value !in {StartObject, StartArray, Null} ==>
              r == Threw(Json(UnexpectedToken))
    ensures Current(tokens, consumed) == Some(StartObject) ==>
              r == (match ReadOneFrom(tokens, consumed, DefaultInfo)
                    case Returned(o) => Returned(Some(ToExpectedError(o.info)))
                    case Threw(f) => Threw(f))
    ensures Current(tokens, consumed) == Some(StartArray) ==>
              r == (match ReadManyFrom(tokens, consumed, [])
                    case Returned(es) => Returned(Some(ManyErrors(es)))
                    case Threw(f) => Threw(f))
  {
    match Current(tokens, consumed)
    case None => Returned(None)
    case Some(StartObject) => (
      match ReadOneFrom(tokens, consumed, DefaultInfo)
      case Threw(f) => Threw(f)
      case Returned(o) => Returned(Some(ToExpectedError(o.info))))
    case Some(StartArray) => (
      match ReadManyFrom(tokens, consumed, [])
      case Threw(f) => Threw(f)
      case Returned(es) => Returned(Some(ManyErrors(es))))
    case Some(Null) => Returned(None)
    case Some(_) => Threw(Json(UnexpectedToken))
  }

  /** Where a read that returns leaves the reader: after the object's
      `EndObject` (or at the end of the stream), at the end of the stream
      after an array, and where it was for null or nothing read yet. */
  function ReadStop(tokens: seq<Token>, consumed: nat): (stop: nat)
    requires consumed <= |tokens|
    ensures consumed <= stop <= |tokens|
    ensures Current(tokens, consumed) != Some(StartObject) && Current(tokens, consumed) != Some(StartArray) ==>
              stop == consumed
    ensures Current(tokens, consumed) == Some(StartArray) ==> stop == |tokens|
    ensures Current(tokens, consumed) == Some(StartObject) && ReadOneFrom(tokens, consumed, DefaultInfo).Returned? ==>
              stop == ReadOneFrom(tokens, consumed, DefaultInfo).value.consumed
  {
    match Current(tokens, consumed)
    case Some(StartObject) => (
      match ReadOneFrom(tokens, consumed, DefaultInfo)
      case Returned(o) => o.consumed
      case Threw(_) => consumed)
    case Some(StartArray) => |tokens|
    case _ => consumed
  }

  method Read(reader: JsonReader) returns (r: Completion<Option<Error>>)
    requires reader.Valid()
    modifies reader
    ensures reader.Valid()
    ensures r == ReadSpec(reader.tokens, old(reader.consumed))
    ensures r.Returned? ==> reader.consumed == ReadStop(reader.tokens, old(reader.consumed))
  {
    match reader.TokenType()
    case None =>
      r := Returned(None);
    case Some(StartObject) =>
      var one := ReadOne(reader);
      r := if one.Threw? then Threw(one.fault) else Returned(Some(ToExpectedError(one.value)));
    case Some(StartArray) =>
      var many := ReadMany(reader);
      r := if many.Threw? then Threw(many.fault) else Returned(Some(many.value));
    case Some(Null) =>
      r := Returned(None);
    case Some(_) =>
      r := Threw(Json(UnexpectedToken));
  }

  /** A read whose leaf comes back exceptional instead of expected. */
  function AsExceptional(c: Completion<Option<Error>>): Completion<Option<Error>> {
    match c
    case Returned(Some(ExpectedError(t, m, x))) => Returned(Some(ExceptionalError(t, m, x)))
    case _ => c
  }

  /** `ExpectedErrorJsonConverter.Read`: as `Read`, but an array is refused. */
  method ReadExpected(reader: JsonReader) returns (r: Completion<Option<Error>>)
    requires reader.Valid()
    modifies reader
    ensures reader.Valid()
    ensures old(reader.TokenType()) == Some(StartArray) ==> reader.consumed == old(reader.consumed)
    ensures r.Returned? ==> reader.consumed == ReadStop(reader.tokens, old(reader.consumed))
    ensures old(reader.TokenType()) == Some(StartArray) ==> r == Threw(Json(UnexpectedToken))
    ensures old(reader.TokenType()) != Some(StartArray) ==> r == ReadSpec(reader.tokens, old(reader.consumed))
    ensures r.Returned? && r.value.Some? ==> r.value.value.ExpectedError?
  {
    match reader.TokenType()
    case Some(StartObject) =>
      var one := ReadOne(reader);
      r := if one.Threw? then Threw(one.fault) else Returned(Some(ToExpectedError(one.value)));
    case None =>
      r := Returned(None);
    case Some(Null) =>
      r := Returned(None);
    case Some(_) =>
      r := Threw(Json(UnexpectedToken));
  }

  /** `ExceptionalErrorJsonConverter.Read`: as `ReadExpected`, with the
      leaf built as an exceptional error. */
  method ReadExceptional(reader: JsonReader) returns (r: Completion<Option<Error>>)
    requires reader.Valid()
    modifies reader
    ensures reader.Valid()
    ensures old(reader.TokenType()) == Some(StartArray) ==> reader.consumed == old(reader.consumed)
    ensures r.Returned? ==> reader.consumed == ReadStop(reader.tokens, old(reader.consumed))
    ensures old(reader.TokenType()) == Some(StartArray) ==> r == Threw(Json(UnexpectedToken))
    ensures old(reader.TokenType()) != Some(StartArray) ==> r == AsExceptional(ReadSpec(reader.tokens, old(reader.consumed)))
    ensures r.Returned? && r.value.Some? ==> r.value.value.ExceptionalError?
  {
    match reader.TokenType()
    case Some(StartObject) =>
      var one := ReadOne(reader);
      r := if one.Threw? then Threw(one.fault) else Returned(Some(ToExceptionalError(one.value)));
    case None =>
      r := Returned(None);
    case Some(Null) =>
      r := Returned(None);
    case Some(_) =>
      r := Threw(Json(UnexpectedToken));
  }

  /** `ManyErrorsJsonConverter.Read`: as `Read`, but an object is refused. */
  method ReadManyErrors(reader: JsonReader) returns (r: Completion<Option<Error>>)
    requires reader.Valid()
    modifies reader
    ensures reader.Valid()
    ensures old(reader.TokenType()) == Some(StartObject) ==> reader.consumed == old(reader.consumed)
    ensures r.Returned? ==> reader.consumed == ReadStop(reader.tokens, old(reader.consumed))
    ensures old(reader.TokenType()) == Some(StartObject) ==> r == Threw(Json(UnexpectedToken))
    ensures old(reader.TokenType()) != Some(StartObject) ==> r == ReadSpec(reader.tokens, old(reader.consumed))
    ensures r.Returned? && r.value.Some? ==> r.value.value.ManyErrors?
  {
    match reader.TokenType()
    case Some(StartArray) =>
      var many := ReadMany(reader);
      r := if many.Threw? then Threw(many.fault) else Returned(Some(many.value));
    case None =>
      r := Returned(None);
    case Some(Null) =>
      r := Returned(None);
    case Some(_) =>
      r := Threw(Json(UnexpectedToken));
  }

  // ---------------------------------------------------------------------
  // The writer
  // ---------------------------------------------------------------------

  /** `Utf8JsonWriter`, as the sequence of tokens written so far. */
  class JsonWriter {
    var written: seq<Token>

    constructor ()
      ensures written == []
    {
      written := [];
    }

    method WriteStartObject()
      modifies this
      ensures written == old(written) + [StartObject]
    {
      written := written + [StartObject];
    }

    method WriteEndObject()
      modifies this
      ensures written == old(written) + [EndObject]
    {
      written := written + [EndObject];
    }

    method WriteStartArray()
      modifies this
      ensures written == old(written) + [StartArray]
    {
      written := written + [StartArray];
    }

    method WriteEndArray()
      modifies this
      ensures written == old(written) + [EndArray]
    {
      written := written + [EndArray];
    }

    /** `WriteString(propertyName, value)`: a name and its string value. */
    method WriteString(name: string, value: string)
      modifies this
      ensures written == old(written) + [PropertyName(name), String(value)]
    {
      written := written + [PropertyName(name), String(value)];
    }
  }

  predicate Distinct(keys: seq<string>) {
    forall i, j | 0 <= i < j < |keys| :: keys[i] != keys[j]
  }

  /** `keys` lists every key of `data` once: the order in which enumerating
      the dictionary happened to yield them. */
  predicate Enumerates(keys: seq<string>, data: map<string, string>) {
    Distinct(keys) && (forall k | k in keys :: k in data) && (forall k | k in data :: k in keys)
  }

  /** One key order per error of `errors`. */
  predicate KeyOrders(errors: seq<Error>, orders: seq<seq<string>>) {
    |orders| == |errors| && forall i | 0 <= i < |errors| :: Enumerates(orders[i], ExtensionData(errors[i]))
  }

  /** The name/value pairs of `data` in the order `keys`. */
  function PropertyTokens(keys: seq<string>, data: map<string, string>): (r: seq<Token>)
    requires forall k | k in keys :: k in data
    ensures |r| == 2 * |keys|
  {
    if keys == [] then []
    else
      var k := keys[|keys| - 1];
      PropertyTokens(keys[..|keys| - 1], data) + [PropertyName(k), String(data[k])]
  }

  /** An object with the given type and message and the pairs of `data` in
      the order `keys`. */
  function ObjectOf(errorType: string, message: string, keys: seq<string>, data: map<string, string>): (r: seq<Token>)
    requires forall k | k in keys :: k in data
    ensures |r| == 6 + 2 * |keys| && r[0] == StartObject && r[|r| - 1] == EndObject
  {
    [StartObject, PropertyName("type"), String(errorType), PropertyName("msg"), String(message)]
    + PropertyTokens(keys, data) + [EndObject]
  }

  /** The object `WriteOne` writes for `e`, its extension pairs in the order `keys`. */
  function ObjectTokens(e: Error, keys: seq<string>): (r: seq<Token>)
    requires Enumerates(keys, ExtensionData(e))
    ensures |r| == 6 + 2 * |keys| && r[0] == StartObject && r[|r| - 1] == EndObject
  {
    ObjectOf(Type(e), Message(e), keys, ExtensionData(e))
  }

  /** The objects of `errors`, one after the other. */
  function ObjectsTokens(errors: seq<Error>, orders: seq<seq<string>>): seq<Token>
    requires KeyOrders(errors, orders)
  {
    if errors == [] then []
    else
      var n := |errors| - 1;
      assert KeyOrders(errors[..n], orders[..n]) by {
        forall i | 0 <= i < n ensures Enumerates(orders[..n][i], ExtensionData(errors[..n][i])) {
          assert orders[..n][i] == orders[i] && errors[..n][i] == errors[i];
        }
      }
      ObjectsTokens(errors[..n], orders[..n]) + ObjectTokens(errors[n], orders[n])
  }

  lemma ObjectsSnoc(errors: seq<Error>, orders: seq<seq<string>>, e: Error, keys: seq<string>)
    requires KeyOrders(errors, orders) && Enumerates(keys, ExtensionData(e))
    ensures KeyOrders(errors + [e], orders + [keys])
    ensures ObjectsTokens(errors + [e], orders + [keys]) == ObjectsTokens(errors, orders) + ObjectTokens(e, keys)
  {
    var n := |errors|;
    assert (errors + [e])[..n] == errors;
    assert (orders + [keys])[..n] == orders;
  }

  /** `ObjectsSnoc` for the first `i + 1` of `errors`. */
  lemma ObjectsPrefixSnoc(errors: seq<Error>, i: nat, orders: seq<seq<string>>, keys: seq<string>)
    requires i < |errors| && KeyOrders(errors[..i], orders) && Enumerates(keys, ExtensionData(errors[i]))
    ensures KeyOrders(errors[..i + 1], orders + [keys])
    ensures ObjectsTokens(errors[..i + 1], orders + [keys]) == ObjectsTokens(errors[..i], orders) + ObjectTokens(errors[i], keys)
  {
    assert errors[..i + 1] == errors[..i] + [errors[i]];
    ObjectsSnoc(errors[..i], orders, errors[i], keys);
  }

  /** What `Write` writes: an array of objects for an aggregate, one object
      for a leaf. */
  function Encoding(e: Error, orders: seq<seq<string>>): (r: seq<Token>)
    requires KeyOrders(ToEnumerable(e), orders)
    ensures e.ManyErrors? ==> r == [StartArray] + ObjectsTokens(e.errors, orders) + [EndArray]
    ensures !e.ManyErrors? ==> r == ObjectTokens(e, orders[0])
  {
    if e.ManyErrors? then [StartArray] + ObjectsTokens(e.errors, orders) + [EndArray]
    else ObjectTokens(e, orders[0])
  }

  /** The extension pairs of `WriteOne`: every pair of `data`, in whatever
      order the dictionary yields them; `keys` is that order. */
  method WriteProperties(writer: JsonWriter, data: map<string, string>) returns (ghost keys: seq<string>)
    modifies writer
    ensures Enumerates(keys, data)
    ensures writer.written == old(writer.written) + PropertyTokens(keys, data)
  {
    keys := [];
    var remaining := data.Keys;
    while remaining != {}
      invariant remaining <= data.Keys
      invariant forall k | k in keys :: k in data && k !in remaining
      invariant forall k | k in data :: k in keys || k in remaining
      invariant Distinct(keys)
      invariant writer.written == old(writer.written) + PropertyTokens(keys, data)
      decreases remaining
    {
      var k :| k in remaining;
      writer.WriteString(k, data[k]);
      assert (keys + [k])[..|keys|] == keys;
      assert PropertyTokens(keys + [k], data) == PropertyTokens(keys, data) + [PropertyName(k), String(data[k])];
      ConcatAssociative(old(writer.written), PropertyTokens(keys, data), [PropertyName(k), String(data[k])]);
      keys := keys + [k];
      remaining := remaining - {k};
    }
  }

  /** `WriteOne`: the object of `e`; `keys` is the order its extension
      pairs came out in. */
  method WriteOne(writer: JsonWriter, e: Error) returns (ghost keys: seq<string>)
    modifies writer
    ensures Enumerates(keys, ExtensionData(e))
    ensures writer.written == old(writer.written) + ObjectTokens(e, keys)
  {
    ghost var before := writer.written;
    writer.WriteStartObject();
    writer.WriteString("type", Type(e));
    writer.WriteString("msg", Message(e));
    ghost var head := [StartObject, PropertyName("type"), String(Type(e)), PropertyName("msg"), String(Message(e))];
    assert writer.written == before + head;
    var data := ExtensionData(e);
    if |data| > 0 {
      keys := WriteProperties(writer, data);
    } else {
      keys := [];
      assert forall k | k in data :: k in data.Keys;
    }
    ConcatAssociative(before, head, PropertyTokens(keys, data));
    writer.WriteEndObject();
    ConcatAssociative(before, head + PropertyTokens(keys, data), [EndObject]);
  }

  /** The array form, shared by `ErrorJsonConverter.Write` and
      `ManyErrorsJsonConverter.Write`. */
  method WriteArray(writer: JsonWriter, e: Error) returns (ghost orders: seq<seq<string>>)
    requires e.ManyErrors?
    modifies writer
    ensures KeyOrders(e.errors, orders)
    ensures writer.written == old(writer.written) + [StartArray] + ObjectsTokens(e.errors, orders) + [EndArray]
  {
    writer.WriteStartArray();
    ghost var start := writer.written;
    orders := [];
    for i := 0 to |e.errors|
      invariant KeyOrders(e.errors[..i], orders)
      invariant writer.written == start + ObjectsTokens(e.errors[..i], orders)
    {
      var keys := WriteOne(writer, e.errors[i]);
      ObjectsPrefixSnoc(e.errors, i, orders, keys);
      ConcatAssociative(start, ObjectsTokens(e.errors[..i], orders), ObjectTokens(e.errors[i], keys));
      orders := orders + [keys];
    }
    assert e.errors[..|e.errors|] == e.errors;
    writer.WriteEndArray();
  }

  /** `ErrorJsonConverter.Write`; the typed converters for the two leaf
      kinds are `WriteOne`, the aggregate's is `WriteArray`. */
  method Write(writer: JsonWriter, e: Error) returns (ghost orders: seq<seq<string>>)
    modifies writer
    ensures KeyOrders(ToEnumerable(e), orders)
    ensures writer.written == old(writer.written) + Encoding(e, orders)
  {
    if e.ManyErrors? {
      orders := WriteArray(writer, e);
      ArrayEncoding(e, orders);
      ConcatAssociative(old(writer.written), [StartArray] + ObjectsTokens(e.errors, orders), [EndArray]);
      ConcatAssociative(old(writer.written), [StartArray], ObjectsTokens(e.errors, orders));
    } else {
      var keys := WriteOne(writer, e);
      orders := [keys];
      LeafEncoding(e, keys);
    }
  }

  lemma ArrayEncoding(e: Error, orders: seq<seq<string>>)
    requires e.ManyErrors? && KeyOrders(e.errors, orders)
    ensures KeyOrders(ToEnumerable(e), orders)
    ensures Encoding(e, orders) == [StartArray] + ObjectsTokens(e.errors, orders) + [EndArray]
  {
  }

  lemma LeafEncoding(e: Error, keys: seq<string>)
    requires !e.ManyErrors? && Enumerates(keys, ExtensionData(e))
    ensures KeyOrders(ToEnumerable(e), [keys])
    ensures Encoding(e, [keys]) == ObjectTokens(e, keys)
  {
    assert ToEnumerable(e)[0] == e;
  }

  // ---------------------------------------------------------------------
  // Reading back what was written
  // ---------------------------------------------------------------------

  /** Only names the reader files under the extension data: no empty name,
      and nothing that reads as "type" or "msg". */
  predicate JsonSafe(e: Error) {
    forall k | k in ExtensionData(e) :: IsExtensionName(k)
  }

  /** The pairs of `data` among `keys` that survive a read: those whose value is not empty. */
  function Kept(data: map<string, string>, keys: seq<string>): map<string, string> {
    map k | k in keys && k in data && data[k] != "" :: data[k]
  }

  /** What reading an object back yields: an empty type falls back to
      "error", and extension pairs with an empty value are lost. */
  function FieldsInfo(errorType: string, message: string, data: map<string, string>): ErrorInfo {
    ErrorInfo(if errorType == "" then DefaultInfo.errorType else errorType, message,
      map k | k in data && data[k] != "" :: data[k])
  }

  function DecodedInfo(e: Error): ErrorInfo {
    FieldsInfo(Type(e), Message(e), ExtensionData(e))
  }

  /** The decoded children, one per error, in order. */
  function Decodes(errors: seq<Error>): (r: seq<Error>)
    ensures |r| == |errors|
  {
    if errors == [] then []
    else Decodes(errors[..|errors| - 1]) + [ToExpectedError(DecodedInfo(errors[|errors| - 1]))]
  }

  /** What reading the encoding of `e` yields. */
  function Decoded(e: Error): Error {
    if e.ManyErrors? then ManyErrors(Decodes(e.errors)) else ToExpectedError(DecodedInfo(e))
  }

  lemma {:induction false} DecodesAt(errors: seq<Error>, i: nat)
    requires i < |errors|
    ensures Decodes(errors)[i] == ToExpectedError(DecodedInfo(errors[i]))
    decreases |errors|
  {
    var n := |errors| - 1;
    if i < n {
      DecodesAt(errors[..n], i);
    }
  }

  /** `Decodes` of one more error, appended to what came before. */
  lemma DecodesSnoc(acc: seq<Error>, errors: seq<Error>)
    requires errors != []
    ensures acc + Decodes(errors)
      == acc + Decodes(errors[..|errors| - 1]) + [ToExpectedError(DecodedInfo(errors[|errors| - 1]))]
  {
    var n := |errors| - 1;
    ConcatAssociative(acc, Decodes(errors[..n]), [ToExpectedError(DecodedInfo(errors[n]))]);
  }

  lemma KeyOrdersPrefix(errors: seq<Error>, orders: seq<seq<string>>, n: nat)
    requires KeyOrders(errors, orders) && n <= |errors|
    ensures KeyOrders(errors[..n], orders[..n])
  {
    forall i | 0 <= i < n ensures Enumerates(orders[..n][i], ExtensionData(errors[..n][i])) {
      assert orders[..n][i] == orders[i] && errors[..n][i] == errors[i];
    }
  }

  lemma MergeUpdate(a: map<string, string>, b: map<string, string>, k: string, v: string)
    ensures (a + b)[k := v] == a + b[k := v]
  {
  }

  // Where the written tokens sit in a stream, stated index by index

  /** The pairs of `data` in the order `keys` sit at `pos`. */
  predicate PairsAt(tokens: seq<Token>, pos: nat, keys: seq<string>, data: map<string, string>)
    decreases |keys|
  {
    pos + 2 * |keys| <= |tokens|
    && (keys != [] ==>
      var n := |keys| - 1;
      PairsAt(tokens, pos, keys[..n], data)
      && keys[n] in data
      && tokens[pos + 2 * n] == PropertyName(keys[n])
      && tokens[pos + 2 * n + 1] == String(data[keys[n]]))
  }

  /** An object with these fields sits at `pos`. */
  predicate ObjectAt(tokens: seq<Token>, pos: nat, errorType: string, message: string, keys: seq<string>, data: map<string, string>) {
    pos + 6 + 2 * |keys| <= |tokens|
    && tokens[pos] == StartObject
    && tokens[pos + 1] == PropertyName("type") && tokens[pos + 2] == String(errorType)
    && tokens[pos + 3] == PropertyName("msg") && tokens[pos + 4] == String(message)
    && PairsAt(tokens, pos + 5, keys, data)
    && tokens[pos + 5 + 2 * |keys|] == EndObject
  }

  /** The number of tokens of the objects written with these key orders. */
  function ObjectsLength(orders: seq<seq<string>>): nat {
    if orders == [] then 0
    else ObjectsLength(orders[..|orders| - 1]) + 6 + 2 * |orders[|orders| - 1]|
  }

  /** Where the `k`-th of the objects laid out from `pos` starts: where the ones before it end. */
  function ObjectStart(pos: nat, orders: seq<seq<string>>, k: nat): nat
    requires k <= |orders|
  {
    pos + ObjectsLength(orders[..k])
  }

  /** The objects of `errors` sit one after the other from `pos`. */
  predicate ObjectsAt(tokens: seq<Token>, pos: nat, errors: seq<Error>, orders: seq<seq<string>>) {
    |orders| == |errors|
    && pos + ObjectsLength(orders) <= |tokens|
    && forall k {:trigger ObjectStart(pos, orders, k)} | 0 <= k < |errors| ::
         ObjectAt(tokens, ObjectStart(pos, orders, k), Type(errors[k]), Message(errors[k]), orders[k], ExtensionData(errors[k]))
  }

  /** A stream that holds `a + b` at `pos` holds `a` there and `b` right after it. */
  lemma SplitSlice(tokens: seq<Token>, pos: nat, a: seq<Token>, b: seq<Token>)
    requires pos + |a| + |b| <= |tokens| && tokens[pos .. pos + |a| + |b|] == a + b
    ensures tokens[pos .. pos + |a|] == a && tokens[pos + |a| .. pos + |a| + |b|] == b
  {
    assert tokens[pos .. pos + |a|] == (a + b)[..|a|];
    assert tokens[pos + |a| .. pos + |a| + |b|] == (a + b)[|a|..];
  }

  lemma {:induction false} PairsAtSlice(tokens: seq<Token>, pos: nat, keys: seq<string>, data: map<string, string>)
    requires forall k | k in keys :: k in data
    requires pos + 2 * |keys| <= |tokens| && tokens[pos .. pos + 2 * |keys|] == PropertyTokens(keys, data)
    ensures PairsAt(tokens, pos, keys, data)
    decreases |keys|
  {
    if keys != [] {
      var n := |keys| - 1;
      var last := [PropertyName(keys[n]), String(data[keys[n]])];
      assert forall k | k in keys[..n] :: k in keys;
      assert PropertyTokens(keys, data) == PropertyTokens(keys[..n], data) + last;
      SplitSlice(tokens, pos, PropertyTokens(keys[..n], data), last);
      assert tokens[pos + 2 * n] == tokens[pos + 2 * n .. pos + 2 * |keys|][0];
      assert tokens[pos + 2 * n + 1] == tokens[pos + 2 * n .. pos + 2 * |keys|][1];
      PairsAtSlice(tokens, pos, keys[..n], data);
    }
  }

  lemma ObjectAtSlice(tokens: seq<Token>, pos: nat, errorType: string, message: string, keys: seq<string>, data: map<string, string>)
    requires forall k | k in keys :: k in data
    requires pos + |ObjectOf(errorType, message, keys, data)| <= |tokens|
    requires tokens[pos .. pos + |ObjectOf(errorType, message, keys, data)|] == ObjectOf(errorType, message, keys, data)
    ensures ObjectAt(tokens, pos, errorType, message, keys, data)
  {
    var head := [StartObject, PropertyName("type"), String(errorType), PropertyName("msg"), String(message)];
    var pairs := PropertyTokens(keys, data);
    SplitSlice(tokens, pos, head + pairs, [EndObject]);
    SplitSlice(tokens, pos, head, pairs);
    forall i | 0 <= i < 5 ensures tokens[pos + i] == head[i] {
      assert tokens[pos .. pos + 5][i] == tokens[pos + i];
    }
    assert tokens[pos + 5 + 2 * |keys|] == tokens[pos + 5 + 2 * |keys| .. pos + 6 + 2 * |keys|][0];
    PairsAtSlice(tokens, pos + 5, keys, data);
  }

  lemma {:induction false} ObjectsTokensLength(errors: seq<Error>, orders: seq<seq<string>>)
    requires KeyOrders(errors, orders)
    ensures |ObjectsTokens(errors, orders)| == ObjectsLength(orders)
    decreases |errors|
  {
    if errors != [] {
      var n := |errors| - 1;
      KeyOrdersPrefix(errors, orders, n);
      ObjectsTokensLength(errors[..n], orders[..n]);
    }
  }

  lemma {:induction false} ObjectsAtSlice(tokens: seq<Token>, pos: nat, errors: seq<Error>, orders: seq<seq<string>>)
    requires KeyOrders(errors, orders)
    requires pos + |ObjectsTokens(errors, orders)| <= |tokens|
    requires tokens[pos .. pos + |ObjectsTokens(errors, orders)|] == ObjectsTokens(errors, orders)
    ensures ObjectsAt(tokens, pos, errors, orders)
    decreases |errors|
  {
    ObjectsTokensLength(errors, orders);
    if errors != [] {
      var n := |errors| - 1;
      KeyOrdersPrefix(errors, orders, n);
      var prefix := ObjectsTokens(errors[..n], orders[..n]);
      var last := ObjectTokens(errors[n], orders[n]);
      assert ObjectsTokens(errors, orders) == prefix + last;
      SplitSlice(tokens, pos, prefix, last);
      ObjectsAtSlice(tokens, pos, errors[..n], orders[..n]);
      ObjectsTokensLength(errors[..n], orders[..n]);
      ObjectsSliceSnoc(tokens, pos, errors, orders, prefix, last);
    }
  }

  /** The step of `ObjectsAtSlice`: the last object's tokens right after the others'. */
  lemma ObjectsSliceSnoc(tokens: seq<Token>, pos: nat, errors: seq<Error>, orders: seq<seq<string>>, prefix: seq<Token>, last: seq<Token>)
    requires errors != [] && KeyOrders(errors, orders) && pos + ObjectsLength(orders) <= |tokens|
    requires ObjectsAt(tokens, pos, errors[..|errors| - 1], orders[..|errors| - 1])
    requires |prefix| == ObjectsLength(orders[..|errors| - 1])
    requires last == ObjectTokens(errors[|errors| - 1], orders[|errors| - 1])
    requires pos + |prefix| + |last| <= |tokens| && tokens[pos + |prefix| .. pos + |prefix| + |last|] == last
    ensures ObjectsAt(tokens, pos, errors, orders)
  {
    var n := |errors| - 1;
    ErrorObjectAtSlice(tokens, pos + |prefix|, errors[n], orders[n]);
    ObjectsAtSnoc(tokens, pos, pos + |prefix|, errors, orders);
  }

  /** The object `WriteOne` writes for `e` sits wherever its tokens do. */
  lemma ErrorObjectAtSlice(tokens: seq<Token>, pos: nat, e: Error, keys: seq<string>)
    requires Enumerates(keys, ExtensionData(e))
    requires pos + |ObjectTokens(e, keys)| <= |tokens| && tokens[pos .. pos + |ObjectTokens(e, keys)|] == ObjectTokens(e, keys)
    ensures ObjectAt(tokens, pos, Type(e), Message(e), keys, ExtensionData(e))
  {
    ObjectAtSlice(tokens, pos, Type(e), Message(e), keys, ExtensionData(e));
  }

  /** `ObjectsAt` for all errors from `ObjectsAt` for all but the last and
      `ObjectAt` for the last one, right after them. */
  lemma ObjectsAtSnoc(tokens: seq<Token>, pos: nat, at: nat, errors: seq<Error>, orders: seq<seq<string>>)
    requires errors != [] && |orders| == |errors| && pos + ObjectsLength(orders) <= |tokens|
    requires ObjectsAt(tokens, pos, errors[..|errors| - 1], orders[..|errors| - 1])
    requires at == pos + ObjectsLength(orders[..|errors| - 1])
    requires ObjectAt(tokens, at, Type(errors[|errors| - 1]), Message(errors[|errors| - 1]), orders[|errors| - 1], ExtensionData(errors[|errors| - 1]))
    ensures ObjectsAt(tokens, pos, errors, orders)
  {
    forall k | 0 <= k < |errors|
      ensures ObjectAt(tokens, ObjectStart(pos, orders, k), Type(errors[k]), Message(errors[k]), orders[k], ExtensionData(errors[k]))
    {
      if k < |errors| - 1 {
        ObjectsAtSnocIndex(tokens, pos, errors, orders, k);
      } else {
        ObjectsAtSnocLast(tokens, pos, at, errors, orders, k);
      }
    }
  }

  /** The last object: the one given at `at`. */
  lemma ObjectsAtSnocLast(tokens: seq<Token>, pos: nat, at: nat, errors: seq<Error>, orders: seq<seq<string>>, k: nat)
    requires k == |errors| - 1 && |errors| == |orders|
    requires at == pos + ObjectsLength(orders[..|errors| - 1])
    requires ObjectAt(tokens, at, Type(errors[|errors| - 1]), Message(errors[|errors| - 1]), orders[|errors| - 1], ExtensionData(errors[|errors| - 1]))
    ensures ObjectAt(tokens, ObjectStart(pos, orders, k), Type(errors[k]), Message(errors[k]), orders[k], ExtensionData(errors[k]))
  {
  }

  /** An object before the last one: as it sits in `ObjectsAt` for the others. */
  lemma ObjectsAtSnocIndex(tokens: seq<Token>, pos: nat, errors: seq<Error>, orders: seq<seq<string>>, k: nat)
    requires k < |errors| - 1 && |errors| == |orders|
    requires ObjectsAt(tokens, pos, errors[..|errors| - 1], orders[..|errors| - 1])
    ensures ObjectAt(tokens, ObjectStart(pos, orders, k), Type(errors[k]), Message(errors[k]), orders[k], ExtensionData(errors[k]))
  {
    var n := |errors| - 1;
    ObjectsAtIndex(tokens, pos, errors[..n], orders[..n], k);
    ObjectAtPrefix(tokens, pos, errors, orders, n, k);
  }

  /** The `k`-th object of a layout sits where the ones before it end. */
  lemma ObjectsAtIndex(tokens: seq<Token>, pos: nat, errors: seq<Error>, orders: seq<seq<string>>, k: nat)
    requires ObjectsAt(tokens, pos, errors, orders) && k < |errors|
    ensures ObjectAt(tokens, pos + ObjectsLength(orders[..k]), Type(errors[k]), Message(errors[k]), orders[k], ExtensionData(errors[k]))
  {
    assert ObjectAt(tokens, ObjectStart(pos, orders, k), Type(errors[k]), Message(errors[k]), orders[k], ExtensionData(errors[k]));
  }

  /** The `k`-th object of a prefix of the errors is the `k`-th object of all of them. */
  lemma ObjectAtPrefix(tokens: seq<Token>, pos: nat, errors: seq<Error>, orders: seq<seq<string>>, n: nat, k: nat)
    requires k < n <= |errors| && n <= |orders|
    ensures ObjectAt(tokens, pos + ObjectsLength(orders[..n][..k]), Type(errors[..n][k]), Message(errors[..n][k]), orders[..n][k], ExtensionData(errors[..n][k]))
      == ObjectAt(tokens, pos + ObjectsLength(orders[..k]), Type(errors[k]), Message(errors[k]), orders[k], ExtensionData(errors[k]))
  {
    assert orders[..n][..k] == orders[..k] && orders[..n][k] == orders[k] && errors[..n][k] == errors[k];
  }

  // Reading, one step at a time

  /** A name followed by a string value moves the reader two tokens on and
      assigns the value, unless it is empty. */
  lemma ReadPair(tokens: seq<Token>, pos: nat, name: string, value: string, info: ErrorInfo)
    requires pos + 2 <= |tokens| && tokens[pos] == PropertyName(name) && tokens[pos + 1] == String(value)
    requires !(IsExtensionName(name) && name in info.extensionData)
    ensures Assign(info, name, value).Returned?
    ensures ReadOneFrom(tokens, pos, info)
      == ReadOneFrom(tokens, pos + 2, if value == "" then info else Assign(info, name, value).value)
  {
    assert SkipComments(tokens, pos + 2) == Returned(pos + 2);
  }

  /** Reading one more pair adds it to what the earlier pairs kept. */
  lemma KeptStep(info: ErrorInfo, data: map<string, string>, keys: seq<string>, k: string)
    requires k in data && IsExtensionName(k) && k !in info.extensionData && k !in keys
    ensures var before := info.(extensionData := info.extensionData + Kept(data, keys));
      k !in before.extensionData
      && Assign(before, k, data[k]).Returned?
      && (if data[k] == "" then before else Assign(before, k, data[k]).value)
         == info.(extensionData := info.extensionData + Kept(data, keys + [k]))
  {
    var before := info.(extensionData := info.extensionData + Kept(data, keys));
    var kept := Kept(data, keys + [k]);
    if data[k] == "" {
      assert kept == Kept(data, keys);
    } else {
      assert kept == Kept(data, keys)[k := data[k]];
      assert Assign(before, k, data[k]).value.extensionData == before.extensionData[k := data[k]];
      MergeUpdate(info.extensionData, Kept(data, keys), k, data[k]);
    }
  }

  /** Dropping the last key of distinct keys leaves distinct keys without it. */
  lemma DistinctPrefix(keys: seq<string>)
    requires Distinct(keys) && keys != []
    ensures keys[|keys| - 1] !in keys[..|keys| - 1] && Distinct(keys[..|keys| - 1])
  {
    var n := |keys| - 1;
    var ks := keys[..n];
    forall j | 0 <= j < n ensures ks[j] != keys[n] {
      assert keys[j] != keys[n];
    }
    forall i, j | 0 <= i < j < n ensures ks[i] != ks[j] {
      assert keys[i] != keys[j];
    }
  }

  /** Reading the extension pairs `WriteProperties` wrote adds exactly the
      pairs with a non-empty value. */
  lemma {:induction false} ReadPairs(tokens: seq<Token>, pos: nat, keys: seq<string>, data: map<string, string>, info: ErrorInfo)
    requires PairsAt(tokens, pos, keys, data)
    requires Distinct(keys)
    requires forall k | k in keys :: IsExtensionName(k) && k !in info.extensionData
    ensures ReadOneFrom(tokens, pos, info)
      == ReadOneFrom(tokens, pos + 2 * |keys|, info.(extensionData := info.extensionData + Kept(data, keys)))
    decreases |keys|
  {
    if keys == [] {
      assert Kept(data, keys) == map[];
      assert info.extensionData + Kept(data, keys) == info.extensionData;
    } else {
      var n := |keys| - 1;
      var ks, k := keys[..n], keys[n];
      DistinctPrefix(keys);
      assert forall j | j in ks :: j in keys;
      assert ks + [k] == keys;
      ReadPairs(tokens, pos, ks, data, info);
      ReadLastPair(tokens, pos, keys, data, info);
    }
  }

  /** The step of `ReadPairs`: reading the last pair after the others. */
  lemma ReadLastPair(tokens: seq<Token>, pos: nat, keys: seq<string>, data: map<string, string>, info: ErrorInfo)
    requires keys != [] && PairsAt(tokens, pos, keys, data)
    requires keys[|keys| - 1] !in keys[..|keys| - 1]
    requires forall k | k in keys :: IsExtensionName(k) && k !in info.extensionData
    ensures ReadOneFrom(tokens, pos + 2 * (|keys| - 1), info.(extensionData := info.extensionData + Kept(data, keys[..|keys| - 1])))
      == ReadOneFrom(tokens, pos + 2 * |keys|, info.(extensionData := info.extensionData + Kept(data, keys)))
  {
    var n := |keys| - 1;
    var k := keys[n];
    assert k in keys;
    KeptLast(info, data, keys);
    ReadPairInto(tokens, pos + 2 * n, pos + 2 * |keys|, k, data[k],
      info.(extensionData := info.extensionData + Kept(data, keys[..n])),
      info.(extensionData := info.extensionData + Kept(data, keys)));
  }

  /** `KeptStep` for the last of the keys. */
  lemma KeptLast(info: ErrorInfo, data: map<string, string>, keys: seq<string>)
    requires keys != [] && keys[|keys| - 1] !in keys[..|keys| - 1]
    requires keys[|keys| - 1] in data && IsExtensionName(keys[|keys| - 1]) && keys[|keys| - 1] !in info.extensionData
    ensures var k, mid := keys[|keys| - 1], info.(extensionData := info.extensionData + Kept(data, keys[..|keys| - 1]));
      !(IsExtensionName(k) && k in mid.extensionData)
      && info.(extensionData := info.extensionData + Kept(data, keys))
         == if data[k] == "" then mid else Assign(mid, k, data[k]).value
  {
    var n := |keys| - 1;
    assert keys[..n] + [keys[n]] == keys;
    KeptStep(info, data, keys[..n], keys[n]);
  }

  /** `ReadPair`, with the position and the state after the pair named. */
  lemma ReadPairInto(tokens: seq<Token>, pos: nat, end: nat, name: string, value: string, info: ErrorInfo, after: ErrorInfo)
    requires end == pos + 2 && end <= |tokens| && tokens[pos] == PropertyName(name) && tokens[pos + 1] == String(value)
    requires !(IsExtensionName(name) && name in info.extensionData)
    requires after == if value == "" then info else Assign(info, name, value).value
    ensures ReadOneFrom(tokens, pos, info) == ReadOneFrom(tokens, end, after)
  {
    ReadPair(tokens, pos, name, value, info);
  }

  /** The "type" and "msg" pairs `WriteOne` writes first set the type and
      the message, unless their value is empty. */
  lemma ReadHeader(tokens: seq<Token>, pos: nat, errorType: string, message: string)
    requires pos + 5 <= |tokens|
    requires tokens[pos + 1] == PropertyName("type") && tokens[pos + 2] == String(errorType)
    requires tokens[pos + 3] == PropertyName("msg") && tokens[pos + 4] == String(message)
    ensures ReadOneFrom(tokens, pos + 1, DefaultInfo)
      == ReadOneFrom(tokens, pos + 5, ErrorInfo(FieldsInfo(errorType, message, map[]).errorType, message, map[]))
  {
    ReadPair(tokens, pos + 1, "type", errorType, DefaultInfo);
    assert !IsTypeName("msg");
    ReadPair(tokens, pos + 3, "msg", message, ErrorInfo(FieldsInfo(errorType, message, map[]).errorType, "", map[]));
  }

  /** Reading an object with these fields consumes exactly the object and
      yields `FieldsInfo` of them. */
  lemma ReadFields(tokens: seq<Token>, pos: nat, errorType: string, message: string, keys: seq<string>, data: map<string, string>)
    requires Enumerates(keys, data) && forall k | k in data :: IsExtensionName(k)
    requires ObjectAt(tokens, pos, errorType, message, keys, data)
    ensures ReadOneFrom(tokens, pos + 1, DefaultInfo)
      == Returned(Outcome(FieldsInfo(errorType, message, data), pos + 6 + 2 * |keys|))
  {
    ReadHeaderPairsClose(tokens, pos, errorType, message, keys, data);
  }

  /** `ReadFields`, from the header tokens, the pairs and the `EndObject`. */
  lemma ReadHeaderPairsClose(tokens: seq<Token>, pos: nat, errorType: string, message: string, keys: seq<string>, data: map<string, string>)
    requires Enumerates(keys, data) && forall k | k in data :: IsExtensionName(k)
    requires pos + 6 + 2 * |keys| <= |tokens|
    requires tokens[pos + 1] == PropertyName("type") && tokens[pos + 2] == String(errorType)
    requires tokens[pos + 3] == PropertyName("msg") && tokens[pos + 4] == String(message)
    requires PairsAt(tokens, pos + 5, keys, data)
    requires tokens[pos + 5 + 2 * |keys|] == EndObject
    ensures ReadOneFrom(tokens, pos + 1, DefaultInfo)
      == Returned(Outcome(FieldsInfo(errorType, message, data), pos + 6 + 2 * |keys|))
  {
    var header := ErrorInfo(FieldsInfo(errorType, message, map[]).errorType, message, map[]);
    ReadPairsClose(tokens, pos + 5, header, errorType, message, keys, data, pos + 6 + 2 * |keys|);
    ReadHeaderThen(tokens, pos, errorType, message, Returned(Outcome(FieldsInfo(errorType, message, data), pos + 6 + 2 * |keys|)));
  }

  /** What follows the header is read from the fields the header gives. */
  lemma ReadHeaderThen(tokens: seq<Token>, pos: nat, errorType: string, message: string, result: Completion<Outcome>)
    requires pos + 5 <= |tokens|
    requires tokens[pos + 1] == PropertyName("type") && tokens[pos + 2] == String(errorType)
    requires tokens[pos + 3] == PropertyName("msg") && tokens[pos + 4] == String(message)
    requires ReadOneFrom(tokens, pos + 5, ErrorInfo(FieldsInfo(errorType, message, map[]).errorType, message, map[])) == result
    ensures ReadOneFrom(tokens, pos + 1, DefaultInfo) == result
  {
    ReadHeader(tokens, pos, errorType, message);
  }

  /** The pairs, then the `EndObject`: the read ends with the fields `FieldsInfo` gives. */
  lemma ReadPairsClose(tokens: seq<Token>, q: nat, header: ErrorInfo, errorType: string, message: string,
                       keys: seq<string>, data: map<string, string>, end: nat)
    requires Enumerates(keys, data) && forall k | k in data :: IsExtensionName(k)
    requires PairsAt(tokens, q, keys, data)
    requires q + 2 * |keys| < |tokens| && tokens[q + 2 * |keys|] == EndObject && end == q + 2 * |keys| + 1
    requires header == ErrorInfo(FieldsInfo(errorType, message, map[]).errorType, message, map[])
    ensures ReadOneFrom(tokens, q, header) == Returned(Outcome(FieldsInfo(errorType, message, data), end))
  {
    assert header.extensionData == map[];
    assert forall k | k in keys :: IsExtensionName(k) && k !in header.extensionData;
    ReadFieldsClose(tokens, q + 2 * |keys|, header, errorType, message, keys, data, end);
    ReadPairsThen(tokens, q, keys, data, header, Returned(Outcome(FieldsInfo(errorType, message, data), end)));
  }

  /** What follows the pairs is read from the fields the pairs give. */
  lemma ReadPairsThen(tokens: seq<Token>, pos: nat, keys: seq<string>, data: map<string, string>, info: ErrorInfo,
                      result: Completion<Outcome>)
    requires PairsAt(tokens, pos, keys, data)
    requires Distinct(keys) && forall k | k in keys :: IsExtensionName(k) && k !in info.extensionData
    requires ReadOneFrom(tokens, pos + 2 * |keys|, info.(extensionData := info.extensionData + Kept(data, keys))) == result
    ensures ReadOneFrom(tokens, pos, info) == result
  {
    ReadPairs(tokens, pos, keys, data, info);
  }

  /** The `EndObject` after the pairs: the read ends with the fields `FieldsInfo` gives. */
  lemma ReadFieldsClose(tokens: seq<Token>, q: nat, header: ErrorInfo, errorType: string, message: string,
                        keys: seq<string>, data: map<string, string>, end: nat)
    requires q < |tokens| && tokens[q] == EndObject && end == q + 1
    requires header == ErrorInfo(FieldsInfo(errorType, message, map[]).errorType, message, map[])
    requires Enumerates(keys, data)
    ensures ReadOneFrom(tokens, q, header.(extensionData := header.extensionData + Kept(data, keys)))
      == Returned(Outcome(FieldsInfo(errorType, message, data), end))
  {
    KeptAll(header, errorType, message, keys, data);
    ReadClose(tokens, q, FieldsInfo(errorType, message, data));
  }

  /** Once every pair is read, the fields are those `FieldsInfo` gives. */
  lemma KeptAll(header: ErrorInfo, errorType: string, message: string, keys: seq<string>, data: map<string, string>)
    requires header == ErrorInfo(FieldsInfo(errorType, message, map[]).errorType, message, map[])
    requires Enumerates(keys, data)
    ensures header.(extensionData := header.extensionData + Kept(data, keys)) == FieldsInfo(errorType, message, data)
  {
    assert header.extensionData + Kept(data, keys) == FieldsInfo(errorType, message, data).extensionData;
  }

  /** The `EndObject` ends the object and keeps what was read. */
  lemma ReadClose(tokens: seq<Token>, q: nat, info: ErrorInfo)
    requires q < |tokens| && tokens[q] == EndObject
    ensures ReadOneFrom(tokens, q, info) == Returned(Outcome(info, q + 1))
  {
  }

  /** One object read by `ReadManyFrom` adds its decoded error. */
  lemma ReadManyStep(tokens: seq<Token>, q: nat, e: Error, keys: seq<string>, acc: seq<Error>, end: nat, result: seq<Error>)
    requires Enumerates(keys, ExtensionData(e)) && JsonSafe(e)
    requires ObjectAt(tokens, q, Type(e), Message(e), keys, ExtensionData(e))
    requires end == q + 6 + 2 * |keys|
    requires result == acc + [ToExpectedError(DecodedInfo(e))]
    ensures ReadManyFrom(tokens, q, acc) == ReadManyFrom(tokens, end, result)
  {
    ReadFields(tokens, q, Type(e), Message(e), keys, ExtensionData(e));
  }

  /** One object read by `ReadArrayFrom` adds its decoded error. */
  lemma ReadArrayStep(tokens: seq<Token>, q: nat, e: Error, keys: seq<string>, acc: seq<Error>, end: nat, result: seq<Error>)
    requires Enumerates(keys, ExtensionData(e)) && JsonSafe(e)
    requires ObjectAt(tokens, q, Type(e), Message(e), keys, ExtensionData(e))
    requires end == q + 6 + 2 * |keys|
    requires result == acc + [ToExpectedError(DecodedInfo(e))]
    ensures ReadArrayFrom(tokens, q, acc) == ReadArrayFrom(tokens, end, result)
  {
    ReadFields(tokens, q, Type(e), Message(e), keys, ExtensionData(e));
  }

  /** Equal neighbours make the ends equal. */
  lemma {:induction false} Chain<T>(f: nat -> T, n: nat)
    requires forall k | 0 <= k < n :: f(k) == f(k + 1)
    ensures f(0) == f(n)
  {
    if n > 0 {
      Chain(f, n - 1);
    }
  }

  lemma {:induction false} ObjectsLengthPrefix(orders: seq<seq<string>>, k: nat)
    requires k <= |orders|
    ensures ObjectsLength(orders[..k]) <= ObjectsLength(orders)
    decreases |orders|
  {
    if k < |orders| {
      var n := |orders| - 1;
      assert orders[..n][..k] == orders[..k];
      ObjectsLengthPrefix(orders[..n], k);
    } else {
      assert orders[..k] == orders;
    }
  }

  /** The length of the first `k + 1` objects, and what they decode to. */
  lemma PrefixSnoc(errors: seq<Error>, orders: seq<seq<string>>, acc: seq<Error>, k: nat)
    requires k < |errors| && k < |orders|
    ensures ObjectsLength(orders[..k + 1]) == ObjectsLength(orders[..k]) + 6 + 2 * |orders[k]|
    ensures acc + Decodes(errors[..k + 1]) == acc + Decodes(errors[..k]) + [ToExpectedError(DecodedInfo(errors[k]))]
  {
    assert orders[..k + 1][..k] == orders[..k] && errors[..k + 1][..k] == errors[..k];
    DecodesSnoc(acc, errors[..k + 1]);
  }

  /** `ReadManyFrom` after the first `k` objects of a layout. */
  function ManyAt(tokens: seq<Token>, pos: nat, errors: seq<Error>, orders: seq<seq<string>>, acc: seq<Error>, k: nat): Completion<seq<Error>> {
    if k <= |errors| && k <= |orders| && pos + ObjectsLength(orders[..k]) <= |tokens|
    then ReadManyFrom(tokens, pos + ObjectsLength(orders[..k]), acc + Decodes(errors[..k]))
    else Threw(Diverges)
  }

  /** `ReadArrayFrom` after the first `k` objects of a layout. */
  function ArrayAt(tokens: seq<Token>, pos: nat, errors: seq<Error>, orders: seq<seq<string>>, acc: seq<Error>, k: nat): Completion<ArrayOutcome> {
    if k <= |errors| && k <= |orders| && pos + ObjectsLength(orders[..k]) <= |tokens|
    then ReadArrayFrom(tokens, pos + ObjectsLength(orders[..k]), acc + Decodes(errors[..k]))
    else Threw(Diverges)
  }

  lemma ManyStepAt(tokens: seq<Token>, pos: nat, errors: seq<Error>, orders: seq<seq<string>>, acc: seq<Error>, k: nat,
                    q: nat, end: nat, before: seq<Error>, after: seq<Error>)
    requires k < |errors| == |orders| && q <= end <= |tokens|
    requires q == pos + ObjectsLength(orders[..k]) && end == pos + ObjectsLength(orders[..k + 1])
    requires before == acc + Decodes(errors[..k]) && after == acc + Decodes(errors[..k + 1])
    requires ReadManyFrom(tokens, q, before) == ReadManyFrom(tokens, end, after)
    ensures ManyAt(tokens, pos, errors, orders, acc, k) == ManyAt(tokens, pos, errors, orders, acc, k + 1)
  {
  }

  lemma ArrayStepAt(tokens: seq<Token>, pos: nat, errors: seq<Error>, orders: seq<seq<string>>, acc: seq<Error>, k: nat,
                    q: nat, end: nat, before: seq<Error>, after: seq<Error>)
    requires k < |errors| == |orders| && q <= end <= |tokens|
    requires q == pos + ObjectsLength(orders[..k]) && end == pos + ObjectsLength(orders[..k + 1])
    requires before == acc + Decodes(errors[..k]) && after == acc + Decodes(errors[..k + 1])
    requires ReadArrayFrom(tokens, q, before) == ReadArrayFrom(tokens, end, after)
    ensures ArrayAt(tokens, pos, errors, orders, acc, k) == ArrayAt(tokens, pos, errors, orders, acc, k + 1)
  {
  }

  lemma ManyEnds(tokens: seq<Token>, pos: nat, errors: seq<Error>, orders: seq<seq<string>>, acc: seq<Error>)
    requires |orders| == |errors| && pos + ObjectsLength(orders) <= |tokens|
    requires ManyAt(tokens, pos, errors, orders, acc, 0) == ManyAt(tokens, pos, errors, orders, acc, |errors|)
    ensures ReadManyFrom(tokens, pos, acc) == ReadManyFrom(tokens, pos + ObjectsLength(orders), acc + Decodes(errors))
  {
    assert orders[..0] == [] && errors[..0] == [] && acc + [] == acc;
    assert orders[..|errors|] == orders && errors[..|errors|] == errors;
  }

  lemma ArrayEnds(tokens: seq<Token>, pos: nat, errors: seq<Error>, orders: seq<seq<string>>, acc: seq<Error>)
    requires |orders| == |errors| && pos + ObjectsLength(orders) <= |tokens|
    requires ArrayAt(tokens, pos, errors, orders, acc, 0) == ArrayAt(tokens, pos, errors, orders, acc, |errors|)
    ensures ReadArrayFrom(tokens, pos, acc) == ReadArrayFrom(tokens, pos + ObjectsLength(orders), acc + Decodes(errors))
  {
    assert orders[..0] == [] && errors[..0] == [] && acc + [] == acc;
    assert orders[..|errors|] == orders && errors[..|errors|] == errors;
  }

  /** The `k`-th object of a layout, read as `ReadMany` does. */
  lemma ManyObject(tokens: seq<Token>, pos: nat, errors: seq<Error>, orders: seq<seq<string>>, acc: seq<Error>, k: nat)
    requires k < |errors| == |orders|
    requires Enumerates(orders[k], ExtensionData(errors[k])) && JsonSafe(errors[k])
    requires ObjectAt(tokens, pos + ObjectsLength(orders[..k]), Type(errors[k]), Message(errors[k]), orders[k], ExtensionData(errors[k]))
    ensures ManyAt(tokens, pos, errors, orders, acc, k) == ManyAt(tokens, pos, errors, orders, acc, k + 1)
  {
    var q, end := pos + ObjectsLength(orders[..k]), pos + ObjectsLength(orders[..k + 1]);
    var before, after := acc + Decodes(errors[..k]), acc + Decodes(errors[..k + 1]);
    PrefixSnoc(errors, orders, acc, k);
    ReadManyStep(tokens, q, errors[k], orders[k], before, end, after);
    ManyStepAt(tokens, pos, errors, orders, acc, k, q, end, before, after);
  }

  /** Reading the objects `WriteArray` wrote, as the source reads arrays,
      appends one decoded error per object, in the order written. */
  lemma ReadObjects(tokens: seq<Token>, pos: nat, errors: seq<Error>, orders: seq<seq<string>>, acc: seq<Error>)
    requires KeyOrders(errors, orders) && forall i | 0 <= i < |errors| :: JsonSafe(errors[i])
    requires ObjectsAt(tokens, pos, errors, orders)
    ensures ReadManyFrom(tokens, pos, acc) == ReadManyFrom(tokens, pos + ObjectsLength(orders), acc + Decodes(errors))
  {
    forall k | 0 <= k < |errors|
      ensures ManyAt(tokens, pos, errors, orders, acc, k) == ManyAt(tokens, pos, errors, orders, acc, k + 1)
    {
      ObjectsAtIndex(tokens, pos, errors, orders, k);
      ManyObject(tokens, pos, errors, orders, acc, k);
    }
    Chain(k => ManyAt(tokens, pos, errors, orders, acc, k), |errors|);
    ManyEnds(tokens, pos, errors, orders, acc);
  }

  /** Objects up to the last token, an `EndArray`, read as `ReadMany` reads them. */
  lemma ReadObjectsToEnd(tokens: seq<Token>, pos: nat, errors: seq<Error>, orders: seq<seq<string>>)
    requires KeyOrders(errors, orders) && forall i | 0 <= i < |errors| :: JsonSafe(errors[i])
    requires ObjectsAt(tokens, pos, errors, orders)
    requires pos + ObjectsLength(orders) + 1 == |tokens| && tokens[pos + ObjectsLength(orders)] == EndArray
    ensures ReadManyFrom(tokens, pos, []) == Returned(Decodes(errors))
  {
    ReadObjects(tokens, pos, errors, orders, []);
    ManyClosedAfterObjects(tokens, pos, errors, orders);
  }

  /** The `EndArray` that ends the stream after the objects ends the reading. */
  lemma ManyClosedAfterObjects(tokens: seq<Token>, pos: nat, errors: seq<Error>, orders: seq<seq<string>>)
    requires pos + ObjectsLength(orders) + 1 == |tokens| && tokens[pos + ObjectsLength(orders)] == EndArray
    ensures ReadManyFrom(tokens, pos + ObjectsLength(orders), [] + Decodes(errors)) == Returned(Decodes(errors))
  {
    EmptyConcat(Decodes(errors));
    ReadManyAtEnd(tokens, pos + ObjectsLength(orders), Decodes(errors));
  }

  /** The `k`-th object of a layout, read as the corrected reading does. */
  lemma ArrayObject(tokens: seq<Token>, pos: nat, errors: seq<Error>, orders: seq<seq<string>>, acc: seq<Error>, k: nat)
    requires k < |errors| == |orders|
    requires Enumerates(orders[k], ExtensionData(errors[k])) && JsonSafe(errors[k])
    requires ObjectAt(tokens, pos + ObjectsLength(orders[..k]), Type(errors[k]), Message(errors[k]), orders[k], ExtensionData(errors[k]))
    ensures ArrayAt(tokens, pos, errors, orders, acc, k) == ArrayAt(tokens, pos, errors, orders, acc, k + 1)
  {
    var q, end := pos + ObjectsLength(orders[..k]), pos + ObjectsLength(orders[..k + 1]);
    var before, after := acc + Decodes(errors[..k]), acc + Decodes(errors[..k + 1]);
    PrefixSnoc(errors, orders, acc, k);
    ReadArrayStep(tokens, q, errors[k], orders[k], before, end, after);
    ArrayStepAt(tokens, pos, errors, orders, acc, k, q, end, before, after);
  }

  /** The same for the corrected reading of arrays. */
  lemma ReadObjectsCorrected(tokens: seq<Token>, pos: nat, errors: seq<Error>, orders: seq<seq<string>>, acc: seq<Error>)
    requires KeyOrders(errors, orders) && forall i | 0 <= i < |errors| :: JsonSafe(errors[i])
    requires ObjectsAt(tokens, pos, errors, orders)
    ensures ReadArrayFrom(tokens, pos, acc) == ReadArrayFrom(tokens, pos + ObjectsLength(orders), acc + Decodes(errors))
  {
    forall k | 0 <= k < |errors|
      ensures ArrayAt(tokens, pos, errors, orders, acc, k) == ArrayAt(tokens, pos, errors, orders, acc, k + 1)
    {
      ObjectsAtIndex(tokens, pos, errors, orders, k);
      ArrayObject(tokens, pos, errors, orders, acc, k);
    }
    Chain(k => ArrayAt(tokens, pos, errors, orders, acc, k), |errors|);
    ArrayEnds(tokens, pos, errors, orders, acc);
  }

  /** Objects, then an `EndArray`, read as the corrected reading reads them. */
  lemma ReadObjectsToArrayEnd(tokens: seq<Token>, pos: nat, errors: seq<Error>, orders: seq<seq<string>>)
    requires KeyOrders(errors, orders) && forall i | 0 <= i < |errors| :: JsonSafe(errors[i])
    requires ObjectsAt(tokens, pos, errors, orders)
    requires pos + ObjectsLength(orders) < |tokens| && tokens[pos + ObjectsLength(orders)] == EndArray
    ensures ReadArrayFrom(tokens, pos, []) == Returned(ArrayOutcome(Decodes(errors), pos + ObjectsLength(orders) + 1))
  {
    ReadObjectsCorrected(tokens, pos, errors, orders, []);
    ArrayClosedAfterObjects(tokens, pos, errors, orders);
  }

  /** The `EndArray` after the objects ends the corrected reading just after it. */
  lemma ArrayClosedAfterObjects(tokens: seq<Token>, pos: nat, errors: seq<Error>, orders: seq<seq<string>>)
    requires pos + ObjectsLength(orders) < |tokens| && tokens[pos + ObjectsLength(orders)] == EndArray
    ensures ReadArrayFrom(tokens, pos + ObjectsLength(orders), [] + Decodes(errors))
      == Returned(ArrayOutcome(Decodes(errors), pos + ObjectsLength(orders) + 1))
  {
    EmptyConcat(Decodes(errors));
    ReadArrayAtEnd(tokens, pos + ObjectsLength(orders), Decodes(errors));
  }

  // What the round trip gives

  /** The array `Write` writes for an aggregate reads back as its decoded children. */
  lemma ReadsArray(e: Error, orders: seq<seq<string>>)
    requires e.ManyErrors? && KeyOrders(e.errors, orders)
    requires forall x | x in e.errors :: JsonSafe(x)
    ensures ReadManyFrom(Encoding(e, orders), 1, []) == Returned(Decodes(e.errors))
  {
    var tokens := Encoding(e, orders);
    assert tokens[0 .. |tokens|] == tokens;
    ArrayLayout(e, orders, tokens, 0);
    ChildrenJsonSafe(e);
    ReadObjectsToEnd(tokens, 1, e.errors, orders);
  }

  /** The array `Write` writes for an aggregate: its objects right after the
      `StartArray`, then the `EndArray`. */
  lemma ArrayLayout(e: Error, orders: seq<seq<string>>, tokens: seq<Token>, at: nat)
    requires e.ManyErrors? && KeyOrders(e.errors, orders)
    requires at + |Encoding(e, orders)| <= |tokens| && tokens[at .. at + |Encoding(e, orders)|] == Encoding(e, orders)
    ensures |Encoding(e, orders)| == ObjectsLength(orders) + 2
    ensures ObjectsAt(tokens, at + 1, e.errors, orders)
    ensures at + 1 + ObjectsLength(orders) < |tokens| && tokens[at + 1 + ObjectsLength(orders)] == EndArray
    ensures at + |Encoding(e, orders)| == at + 1 + ObjectsLength(orders) + 1
  {
    var objs := ObjectsTokens(e.errors, orders);
    SplitSlice(tokens, at, [StartArray] + objs, [EndArray]);
    SplitSlice(tokens, at, [StartArray], objs);
    ObjectsAtSlice(tokens, at + 1, e.errors, orders);
    ObjectsTokensLength(e.errors, orders);
    assert tokens[at + 1 + |objs|] == tokens[at + 1 + |objs| .. at + 2 + |objs|][0];
  }

  lemma ChildrenJsonSafe(e: Error)
    requires e.ManyErrors? && forall x | x in e.errors :: JsonSafe(x)
    ensures forall i | 0 <= i < |e.errors| :: JsonSafe(e.errors[i])
  {
    forall i | 0 <= i < |e.errors| ensures JsonSafe(e.errors[i]) {
      assert e.errors[i] in e.errors;
    }
  }

  /** The last token, an `EndArray`, ends `ReadManyFrom` with what it has read. */
  lemma ReadManyAtEnd(tokens: seq<Token>, pos: nat, errors: seq<Error>)
    requires pos + 1 == |tokens| && tokens[pos] == EndArray
    ensures ReadManyFrom(tokens, pos, errors) == Returned(errors)
  {
  }

  /** An `EndArray` ends `ReadArrayFrom` right after it. */
  lemma ReadArrayAtEnd(tokens: seq<Token>, pos: nat, errors: seq<Error>)
    requires pos < |tokens| && tokens[pos] == EndArray
    ensures ReadArrayFrom(tokens, pos, errors) == Returned(ArrayOutcome(errors, pos + 1))
  {
  }

  /** The object `Write` writes for a single error reads back as its decoded fields. */
  lemma ReadsObject(e: Error, orders: seq<seq<string>>)
    requires !e.ManyErrors? && KeyOrders(ToEnumerable(e), orders) && JsonSafe(e)
    ensures ReadOneFrom(Encoding(e, orders), 1, DefaultInfo) == Returned(Outcome(DecodedInfo(e), |Encoding(e, orders)|))
  {
    assert ToEnumerable(e)[0] == e;
    ReadsOwnObject(Encoding(e, orders), e, orders[0]);
  }

  /** The object `WriteOne` writes for `e`, read on its own. */
  lemma ReadsOwnObject(tokens: seq<Token>, e: Error, keys: seq<string>)
    requires Enumerates(keys, ExtensionData(e)) && JsonSafe(e)
    requires tokens == ObjectTokens(e, keys)
    ensures ReadOneFrom(tokens, 1, DefaultInfo) == Returned(Outcome(DecodedInfo(e), |tokens|))
  {
    assert tokens[0 .. |tokens|] == tokens;
    ObjectAtSlice(tokens, 0, Type(e), Message(e), keys, ExtensionData(e));
    ReadFieldsTo(tokens, 0, Type(e), Message(e), keys, ExtensionData(e), 1, |tokens|, DecodedInfo(e));
  }

  /** `ReadFields`, with the start, the end and the fields read given by the caller. */
  lemma ReadFieldsTo(tokens: seq<Token>, pos: nat, errorType: string, message: string, keys: seq<string>, data: map<string, string>,
                     start: nat, end: nat, info: ErrorInfo)
    requires Enumerates(keys, data) && forall k | k in data :: IsExtensionName(k)
    requires ObjectAt(tokens, pos, errorType, message, keys, data)
    requires start == pos + 1 && end == pos + 6 + 2 * |keys| && info == FieldsInfo(errorType, message, data)
    ensures ReadOneFrom(tokens, start, DefaultInfo) == Returned(Outcome(info, end))
  {
    ReadFields(tokens, pos, errorType, message, keys, data);
  }

  /** Round trip: whatever order the extension pairs were written in,
      reading what `Write` wrote yields `Decoded(e)`. */
  lemma RoundTrip(e: Error, orders: seq<seq<string>>)
    requires KeyOrders(ToEnumerable(e), orders)
    requires forall x | x in ToEnumerable(e) :: JsonSafe(x)
    ensures ReadSpec(Encoding(e, orders), 1) == Returned(Some(Decoded(e)))
  {
    if e.ManyErrors? {
      ReadsArray(e, orders);
    } else {
      assert e in ToEnumerable(e);
      ReadsObject(e, orders);
    }
  }

  /** What is read back stands for what was written: it is `Equals` to it,
      has the same count and the same extension data, and is made of
      expected errors only, provided no type and no extension value is empty. */
  lemma DecodedMatches(e: Error)
    requires forall x | x in ToEnumerable(e) :: Type(x) != ""
    requires forall x, k | x in ToEnumerable(e) && k in ExtensionData(x) :: ExtensionData(x)[k] != ""
    ensures Equals(Decoded(e), Some(e))
    ensures IsExpected(Decoded(e)) && Count(Decoded(e)) == Count(e)
    ensures forall i | 0 <= i < Count(e) :: ExtensionData(ToEnumerable(Decoded(e))[i]) == ExtensionData(ToEnumerable(e)[i])
  {
    var d := Decoded(e);
    forall i | 0 <= i < Count(e)
      ensures ToEnumerable(d)[i] == ToExpectedError(DecodedInfo(ToEnumerable(e)[i]))
      ensures ExtensionData(ToEnumerable(d)[i]) == ExtensionData(ToEnumerable(e)[i])
    {
      var x := ToEnumerable(e)[i];
      assert x in ToEnumerable(e);
      if e.ManyErrors? {
        DecodesAt(e.errors, i);
      }
      assert DecodedInfo(x).extensionData == ExtensionData(x);
    }
  }

  /** Writing then reading an aggregate at the top of a document. */
  lemma WriteReadAggregate(e: Error, orders: seq<seq<string>>)
    requires e.ManyErrors? && KeyOrders(e.errors, orders)
    requires forall x | x in e.errors :: JsonSafe(x) && Type(x) != ""
    requires forall x, k | x in e.errors && k in ExtensionData(x) :: ExtensionData(x)[k] != ""
    ensures ReadSpec(Encoding(e, orders), 1).Returned?
    ensures var r := ReadSpec(Encoding(e, orders), 1).value;
      r.Some? && r.value.ManyErrors? && Equals(r.value, Some(e)) && IsExpected(r.value)
  {
    RoundTrip(e, orders);
    DecodedMatches(e);
  }

  // ---------------------------------------------------------------------
  // Reading an array that is not the whole document
  // ---------------------------------------------------------------------

  /** Where the corrected reading of an array stopped and what it read. */
  datatype ArrayOutcome = ArrayOutcome(errors: seq<Error>, consumed: nat)

  /** The array reading `ReadMany` evidently intends: as `ReadManyFrom`, but
      it stops right after the first `EndArray` it meets. Arrays as `Write`
      produces them hold no nested array, so that token is the one that
      closes the array. */
  function ReadArrayFrom(tokens: seq<Token>, consumed: nat, errors: seq<Error>): Completion<ArrayOutcome>
    requires consumed <= |tokens|
    decreases |tokens| - consumed
  {
    if consumed == |tokens| then Returned(ArrayOutcome(errors, consumed))
    else if tokens[consumed] == EndArray then Returned(ArrayOutcome(errors, consumed + 1))
    else if tokens[consumed] == StartObject then
      match ReadOneFrom(tokens, consumed + 1, DefaultInfo)
      case Threw(f) => Threw(f)
      case Returned(o) => ReadArrayFrom(tokens, o.consumed, errors + [ToExpectedError(o.info)])
    else ReadArrayFrom(tokens, consumed + 1, errors)
  }

  /** The loop of `ReadMany` with the stop at the first `EndArray` that
      `ReadArrayFrom` describes; the reader is left on that `EndArray`. */
  method ReadArray(reader: JsonReader) returns (r: Completion<Error>)
    requires reader.Valid()
    modifies reader
    ensures reader.Valid()
    ensures match ReadArrayFrom(reader.tokens, old(reader.consumed), [])
      case Returned(a) => r == Returned(ManyErrors(a.errors)) && reader.consumed == a.consumed
      case Threw(f) => r == Threw(f)
  {
    ghost var goal := ReadArrayFrom(reader.tokens, reader.consumed, []);
    var errors := [];
    while true
      invariant reader.Valid()
      invariant ReadArrayFrom(reader.tokens, reader.consumed, errors) == goal
      decreases |reader.tokens| - reader.consumed
    {
      var more := reader.Read();
      if !more {
        return Returned(ManyErrors(errors));
      }
      if reader.TokenType() == Some(EndArray) {
        return Returned(ManyErrors(errors));
      }
      if reader.TokenType() == Some(StartObject) {
        var one := ReadOne(reader);
        if one.Threw? {
          return Threw(one.fault);
        }
        errors := errors + [ToExpectedError(one.value)];
      }
    }
  }

  /** `ReadMany` does not stop at the `EndArray` closing its array: inside
      `{"errors": [], "cause": {}}`, reading the empty array picks up the
      sibling object as an error and runs to the end of the stream. */
  lemma ReadManyReadsPastItsArray()
    ensures var tokens := [StartObject, PropertyName("errors"), StartArray, EndArray,
                           PropertyName("cause"), StartObject, EndObject, EndObject];
      ReadManyFrom(tokens, 3, []) == Returned([ToExpectedError(DefaultInfo)])
      && ReadArrayFrom(tokens, 3, []) == Returned(ArrayOutcome([], 4))
  {
    var tokens := [StartObject, PropertyName("errors"), StartArray, EndArray,
                   PropertyName("cause"), StartObject, EndObject, EndObject];
    assert ReadOneFrom(tokens, 6, DefaultInfo) == Returned(Outcome(DefaultInfo, 7));
  }

  /** The corrected reading consumes exactly the array `Write` wrote,
      wherever it sits in the stream and whatever follows it, and yields
      the decoded children. */
  lemma ArrayRoundTripInContext(e: Error, orders: seq<seq<string>>, tokens: seq<Token>, at: nat)
    requires e.ManyErrors? && KeyOrders(e.errors, orders)
    requires forall x | x in e.errors :: JsonSafe(x)
    requires at + |Encoding(e, orders)| <= |tokens| && tokens[at .. at + |Encoding(e, orders)|] == Encoding(e, orders)
    ensures ReadArrayFrom(tokens, at + 1, [])
      == Returned(ArrayOutcome(Decodes(e.errors), at + |Encoding(e, orders)|))
  {
    ArrayLayout(e, orders, tokens, at);
    ChildrenJsonSafe(e);
    ReadObjectsToArrayEnd(tokens, at + 1, e.errors, orders);
  }
}
