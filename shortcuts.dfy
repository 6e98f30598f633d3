/** The request shortcuts of news_app/shortcuts.py: reading a form or query
    parameter or answering 404, and the read-once session values the views
    use to carry an error message or a half-written text across a redirect. */
module Shortcuts {
  import opened Wrappers
  import opened PyStr

  /** What the views store in a session: strings, and the id of the item a
      kept comment text belongs to. */
  datatype SessionValue = Text(s: string) | Number(n: int)

  type SessionData = map<string, SessionValue>

  /** `str(value)`. */
  function Str(v: SessionValue): string {
    match v
    case Text(s) => s
    case Number(n) => IntToString(n)
  }

  /** `get_from_GET_or_404` and `get_from_POST_or_404`: the parameter's value,
      `None` standing for the 404. */
  function ParamOr404(params: map<string, string>, key: string): (r: Option<string>)
    ensures r.Some? <==> key in params
    ensures r.Some? ==> r.value == params[key]
  {
    if key in params then Some(params[key]) else None
  }

  /** `request.GET.get(key, default)`. */
  function ParamOrDefault(params: map<string, string>, key: string, default: string): string {
    if key in params then params[key] else default
  }

  /** The 404 shortcut agrees with `dict.get` wherever it does not give a
      404, whatever default `get` would have used, and reads back a value
      just set under the key. */
  lemma ParamOr404AgreesWithGet(params: map<string, string>, key: string, default: string, v: string)
    ensures ParamOr404(params, key).Some? ==> ParamOr404(params, key).value == ParamOrDefault(params, key, default)
    ensures ParamOr404(params, key).None? ==> ParamOrDefault(params, key, default) == default
    ensures ParamOr404(params[key := v], key) == Some(v)
  {
  }

  /** `get_from_session`: the value under `key` (or `default`) and the session
      with the key removed. */
  function PopFromSession(data: SessionData, key: string, default: SessionValue): (SessionValue, SessionData) {
    if key in data then (data[key], data - {key}) else (default, data)
  }

  /** `del_from_session`: the session without `key`. */
  function DelFromSession(data: SessionData, key: string): SessionData {
    if key in data then data - {key} else data
  }

  /** A present key yields its value and is gone afterwards; every other key
      keeps its value. */
  lemma PopPresent(data: SessionData, key: string, default: SessionValue)
    requires key in data
    ensures PopFromSession(data, key, default).0 == data[key]
    ensures key !in PopFromSession(data, key, default).1
    ensures forall k | k != key :: (k in PopFromSession(data, key, default).1 <==> k in data)
    ensures forall k | k != key && k in data :: PopFromSession(data, key, default).1[k] == data[k]
  {
  }

  /** An absent key yields the default and leaves the session as it was. */
  lemma PopAbsent(data: SessionData, key: string, default: SessionValue)
    requires key !in data
    ensures PopFromSession(data, key, default) == (default, data)
  {
  }

  /** Read-once: a second read of the same key yields the default. */
  lemma PopReadOnce(data: SessionData, key: string, default: SessionValue, default': SessionValue)
    ensures
      var after := PopFromSession(data, key, default).1;
      PopFromSession(after, key, default') == (default', after)
  {
  }

  /** Putting a popped value back restores the session. */
  lemma PopThenPutBack(data: SessionData, key: string, default: SessionValue)
    requires key in data
    ensures
      var (v, after) := PopFromSession(data, key, default);
      after[key := v] == data
  {
    var (v, after) := PopFromSession(data, key, default);
    assert after[key := v].Keys == data.Keys;
  }

  /** Reading two keys in turn leaves the session without both. */
  lemma PopTwo(data: SessionData, k1: string, k2: string, d1: SessionValue, d2: SessionValue)
    ensures PopFromSession(PopFromSession(data, k1, d1).1, k2, d2).1 == data - {k1, k2}
  {
    var s2 := PopFromSession(PopFromSession(data, k1, d1).1, k2, d2).1;
    assert s2.Keys == data.Keys - {k1, k2};
  }

  /** Deleting removes exactly `key`, keeps every other entry, and a second
      delete changes nothing. */
  lemma DelIdempotent(data: SessionData, key: string)
    ensures key !in DelFromSession(data, key)
    ensures forall k | k != key :: (k in DelFromSession(data, key) <==> k in data)
    ensures forall k | k != key && k in data :: DelFromSession(data, key)[k] == data[k]
    ensures DelFromSession(DelFromSession(data, key), key) == DelFromSession(data, key)
  {
  }

  /** Deleting a key is popping it and dropping the value. */
  lemma DelIsPop(data: SessionData, key: string, default: SessionValue)
    ensures DelFromSession(data, key) == PopFromSession(data, key, default).1
  {
  }

  /** `request.session`, changed in place by the views. */
  class Session {
    var data: SessionData

    constructor (data0: SessionData)
      ensures data == data0
    {
      data := data0;
    }

    /** `get_from_session(request, key, default)`. */
    method GetFromSession(key: string, default: SessionValue) returns (v: SessionValue)
      modifies this
      ensures (v, data) == PopFromSession(old(data), key, default)
    {
      v := default;
      if key in data {
        v := data[key];
        data := data - {key};
      }
    }

    /** `del_from_session(request, key)`. */
    method Delete(key: string)
      modifies this
      ensures data == DelFromSession(old(data), key)
    {
      if key in data {
        data := data - {key};
      }
    }

    /** `request.session[key] = v`. */
    method Put(key: string, v: SessionValue)
      modifies this
      ensures data == old(data)[key := v]
    {
      data := data[key := v];
    }
  }
}
