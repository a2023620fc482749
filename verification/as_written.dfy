/**
 The `setStatus` guard as the source writes it. `this.statusEmojis[newStatus]`
 reads a plain object, so besides its four own keys it also finds every name
 the object inherits from `Object.prototype`; the values found there (methods,
 or the prototype object itself) are truthy, and the guard lets them through.
 The rest of the model uses the corrected guard, `Manager.SetStatus`, which
 admits the own keys only.
 */
module AsWritten {

  import opened StatusTable
  import opened Describe
  import opened Manager

  /** The properties of `Object.prototype` that a plain object literal inherits. */
  const InheritedNames: set<string> := {
    "constructor", "hasOwnProperty", "isPrototypeOf", "propertyIsEnumerable",
    "toLocaleString", "toString", "valueOf", "__proto__",
    "__defineGetter__", "__defineSetter__", "__lookupGetter__", "__lookupSetter__"
  }

  /** Truthiness of `statusEmojis[key]`, inherited properties included. */
  predicate LookupTruthy(key: string) {
    key in Emojis || key in InheritedNames
  }

  /**
   `setStatus` as written, for the presence and storage it leaves behind (the
   description it then writes would start with the inherited value's text and
   is not modelled).
   */
  function SetStatusAsWritten(p: Page, status: string): (r: (Presence, Storage))
    ensures LookupTruthy(status) ==> r.0 == p.presence.(status := status)
    ensures LookupTruthy(status) ==> StatusKey in r.1 && r.1[StatusKey] == status
    ensures r.1 - {StatusKey} == p.storage - {StatusKey}
    ensures !LookupTruthy(status) ==> r == (p.presence, p.storage)
  {
    if LookupTruthy(status) then (p.presence.(status := status), p.storage[StatusKey := status])
    else (p.presence, p.storage)
  }

  /** The discrepancy: "toString" is no status, yet the written guard stores it, where the corrected one ignores it. */
  lemma InheritedNamePassesGuard(p: Page)
    ensures !IsStatus("toString")
    ensures SetStatusAsWritten(p, "toString").0.status == "toString"
    ensures SetStatusAsWritten(p, "toString").1[StatusKey] == "toString"
    ensures SetStatus(p, "toString") == p
  {
    assert "toString" in InheritedNames;
  }

  /** Away from the inherited names the written guard and the corrected one agree. */
  lemma AsWrittenAgreesOnOtherNames(p: Page, status: string)
    requires status !in InheritedNames
    ensures SetStatusAsWritten(p, status) == (SetStatus(p, status).presence, SetStatus(p, status).storage)
  {
  }
}
