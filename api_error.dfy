/** `parseApiError`: turns the JSON body of a non-2xx reply into the one message the
    client shows. The value of `JSON.stringify` is left to the caller (`stringify`);
    a body that makes the decoder itself throw is reported as `DecoderThrew`. */
module ApiError {
  import opened Wrappers
  import opened Text
  import opened JsonValue

  const UnknownLoc := "unknown"
  const UnknownMsg := "Unknown error"
  const EntrySeparator := ", "

  /** The message the decoder starts from: `HTTP error! status: <code>`. */
  function HttpFallback(status: nat): string {
    "HTTP error! status: " + NatToDecimal(status)
  }

  datatype Decoded = Decoded(message: string) | DecoderThrew

  /** `(err.loc || ['unknown']).join('.')`; `None` when `loc` is truthy but not an
      array, so that `.join` is not a function. */
  function LocText(err: Json): Option<string> {
    var loc := Get(err, "loc");
    if loc.None? || !Truthy(loc.value) then Some(UnknownLoc)
    else if loc.value.JArray? then Some(JoinValues(loc.value.items, "."))
    else None
  }

  /** `${err.msg || 'Unknown error'}`. */
  function MsgText(err: Json): string {
    var msg := Get(err, "msg");
    if msg.Some? && Truthy(msg.value) then ToJsString(msg.value) else UnknownMsg
  }

  /** One entry `<loc>: <msg>`; `None` when reading it throws (a null entry, or a
      `loc` without `join`). */
  function FormatEntry(err: Json): Option<string> {
    if err.JNull? then None
    else match LocText(err)
      case None => None
      case Some(loc) => Some(loc + ": " + MsgText(err))
  }

  /** `detail.map(...)`: every entry formatted, or `None` if one of them throws. */
  function FormatEntries(entries: seq<Json>): (r: Option<seq<string>>)
    ensures r.Some? <==> forall i :: 0 <= i < |entries| ==> FormatEntry(entries[i]).Some?
    ensures r.Some? ==> |r.value| == |entries|
    ensures r.Some? ==> forall i :: 0 <= i < |entries| ==> r.value[i] == FormatEntry(entries[i]).value
  {
    if entries == [] then Some([])
    else match (FormatEntry(entries[0]), FormatEntries(entries[1..]))
      case (Some(head), Some(tail)) => Some([head] + tail)
      case _ => None
  }

  /** `data.detail[0]?.msg` is truthy. */
  predicate FirstHasMsg(entries: seq<Json>) {
    |entries| > 0 && Get(entries[0], "msg").Some? && Truthy(Get(entries[0], "msg").value)
  }

  /** `data?.detail`, when truthy. */
  function Detail(data: Json): Option<Json> {
    var d := Get(data, "detail");
    if d.Some? && Truthy(d.value) then d else None
  }

  /** `data && typeof data === 'object'`: objects and arrays. */
  predicate IsObject(data: Json) {
    data.JObject? || data.JArray?
  }

  /** The last step of the decoder: a message still equal to the starting text is
      replaced by the stringified payload when the payload is an object. */
  function Settled(m: string, data: Json, status: nat, stringify: Json -> string): string {
    if m == HttpFallback(status) && IsObject(data) then stringify(data) else m
  }

  function ParseApiError(data: Json, status: nat, stringify: Json -> string): (r: Decoded)
    // a truthy detail can only be read from an object payload
    ensures Detail(data).Some? ==> IsObject(data)
    // 1. a string detail is the message
    ensures Detail(data).Some? && Detail(data).value.JString? ==>
              r == Decoded(Settled(Detail(data).value.s, data, status, stringify))
    // 2. a list whose first entry has a msg: the entries joined by ", ", unless one throws
    ensures Detail(data).Some? && Detail(data).value.JArray? && FirstHasMsg(Detail(data).value.items)
            ==> (r.DecoderThrew? <==> FormatEntries(Detail(data).value.items).None?)
    ensures Detail(data).Some? && Detail(data).value.JArray? && FirstHasMsg(Detail(data).value.items) &&
            FormatEntries(Detail(data).value.items).Some?
            ==> r == Decoded(Settled(Join(FormatEntries(Detail(data).value.items).value, EntrySeparator),
                                     data, status, stringify))
    // 3. any other truthy detail is stringified
    ensures Detail(data).Some? && !Detail(data).value.JString? &&
            !(Detail(data).value.JArray? && FirstHasMsg(Detail(data).value.items))
            ==> r == Decoded(Settled(stringify(Detail(data).value), data, status, stringify))
    // 4. with no detail, the starting text, or the whole payload when it is an object
    ensures Detail(data).None? ==> r == Decoded(Settled(HttpFallback(status), data, status, stringify))
    ensures Detail(data).None? ==>
              r == Decoded(if IsObject(data) then stringify(data) else HttpFallback(status))
    // the decoder throws only while formatting a validation-error list
    ensures r.DecoderThrew? <==>
              Detail(data).Some? && Detail(data).value.JArray? && FirstHasMsg(Detail(data).value.items) &&
              FormatEntries(Detail(data).value.items).None?
  {
    var fallback := HttpFallback(status);
    var first: Option<string> :=
      match Detail(data)
      case None => Some(fallback)
      case Some(JString(s)) => Some(s)
      case Some(JArray(entries)) =>
        if FirstHasMsg(entries) then
          match FormatEntries(entries)
          case None => None
          case Some(parts) => Some(Join(parts, EntrySeparator))
        else Some(stringify(JArray(entries)))
      case Some(other) => Some(stringify(other));
    match first
    case None => DecoderThrew
    case Some(m) => Decoded(Settled(m, data, status, stringify))
  }

  lemma ExampleLocation()
    ensures JoinValues([JString("body"), JString("files"), JNumber(0)], ".") == "body.files.0"
  {
    var loc := [JString("body"), JString("files"), JNumber(0)];
    assert ToJsString(JNumber(0)) == "0";
    var parts := seq(|loc|, i requires 0 <= i < |loc| => if loc[i].JNull? then "" else ToJsString(loc[i]));
    assert parts == ["body", "files", "0"];
    assert Join(["0"], ".") == "0";
    assert Join(["files", "0"], ".") == "files" + "." + "0";
    assert Join(parts, ".") == "body" + "." + "files.0";
  }

  lemma ExampleEntry()
    ensures FormatEntry(JObject(map[
              "loc" := JArray([JString("body"), JString("files"), JNumber(0)]),
              "msg" := JString("Unsupported format")]))
            == Some("body.files.0: Unsupported format")
  {
    var entry := JObject(map[
      "loc" := JArray([JString("body"), JString("files"), JNumber(0)]),
      "msg" := JString("Unsupported format")]);
    ExampleLocation();
    assert LocText(entry) == Some("body.files.0");
    assert MsgText(entry) == "Unsupported format";
    assert "body.files.0" + ": " + "Unsupported format" == "body.files.0: Unsupported format";
  }

  /** A FastAPI validation error with status 422: the path parts, one of them a
      number, are joined by '.', then ": " and the message. */
  lemma ValidationErrorExample(stringify: Json -> string)
    ensures ParseApiError(
              JObject(map["detail" := JArray([JObject(map[
                "loc" := JArray([JString("body"), JString("files"), JNumber(0)]),
                "msg" := JString("Unsupported format")])])]),
              422, stringify)
            == Decoded("body.files.0: Unsupported format")
  {
    var entry := JObject(map[
      "loc" := JArray([JString("body"), JString("files"), JNumber(0)]),
      "msg" := JString("Unsupported format")]);
    var msg := "body.files.0: Unsupported format";
    ExampleEntry();
    assert FormatEntries([entry]) == Some([msg]) by {
      assert [entry][0] == entry && [entry][1..] == [];
      assert FormatEntries([]) == Some([]);
      assert [msg] + [] == [msg];
    }
    assert Join([msg], EntrySeparator) == msg;
    assert msg != HttpFallback(422) by {
      assert msg[0] != HttpFallback(422)[0];
    }
  }

  /** Only the first entry is checked before the list is formatted: a later null
      entry makes the decoder throw. */
  lemma NullLaterEntryThrows(status: nat, stringify: Json -> string)
    ensures ParseApiError(
              JObject(map["detail" := JArray([JObject(map["msg" := JString("bad")]), JNull])]),
              status, stringify)
            == DecoderThrew
  {
    var entries := [JObject(map["msg" := JString("bad")]), JNull];
    assert FormatEntry(entries[1]).None?;
    assert FormatEntries(entries).None?;
  }

  /** A joined list that happens to read exactly like the starting text is replaced
      by the whole payload, as any other message equal to it would be. */
  lemma FallbackLookalikeReplaced(stringify: Json -> string)
    ensures var data := JObject(map["detail" := JArray([JObject(map[
              "loc" := JArray([JString("HTTP error! status")]),
              "msg" := JString("500")])])]);
            ParseApiError(data, 500, stringify) == Decoded(stringify(data))
  {
    var entry := JObject(map["loc" := JArray([JString("HTTP error! status")]), "msg" := JString("500")]);
    var loc := [JString("HTTP error! status")];
    var msg := "HTTP error! status: 500";
    assert JoinValues(loc, ".") == "HTTP error! status" by {
      var parts := seq(|loc|, i requires 0 <= i < |loc| => if loc[i].JNull? then "" else ToJsString(loc[i]));
      assert parts == ["HTTP error! status"];
    }
    assert LocText(entry) == Some("HTTP error! status");
    assert MsgText(entry) == "500";
    assert "HTTP error! status" + ": " + "500" == msg;
    assert FormatEntry(entry) == Some(msg);
    assert FormatEntries([entry]) == Some([msg]) by {
      assert [entry][0] == entry && [entry][1..] == [];
      assert FormatEntries([]) == Some([]);
      assert [msg] + [] == [msg];
    }
    assert Join([msg], EntrySeparator) == msg;
    assert NatToDecimal(500) == "500" by {
      assert NatToDecimal(5) == "5";
      assert NatToDecimal(50) == "50";
    }
    assert HttpFallback(500) == msg;
  }
}
