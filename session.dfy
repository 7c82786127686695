/**
 * The user session of a Yii web application as the controllers use it: a
 * key/value store with `get`, `has`, `set` and `remove`.
 */
module Sessions {

  import opened Php

  class Session {
    var data: map<string, Value>

    constructor (initial: map<string, Value>)
      ensures data == initial
    {
      data := initial;
    }

    /** `$session->has($key)`: the key is stored with a non-null value. */
    predicate Has(key: string)
      reads this
    {
      IsSet(data, key)
    }

    /** `$session->get($key, $default)`: the stored value, or the default when there is none. */
    function Get(key: string, default: Value): (v: Value)
      reads this
      ensures Has(key) ==> v == data[key]
      ensures !Has(key) ==> v == default
    {
      GetOrDefault(data, key, default)
    }

    /** `$session->set($key, $value)`. */
    method Set(key: string, value: Value)
      modifies this
      ensures data == old(data)[key := value]
    {
      data := data[key := value];
    }

    /** `$session->remove($key)`. */
    method Remove(key: string)
      modifies this
      ensures data == old(data) - {key}
    {
      data := data - {key};
    }
  }
}
