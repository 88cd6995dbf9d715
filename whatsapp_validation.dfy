/**
 * `is_valid_whatsapp_message`: the shape check on an inbound webhook body. The source
 * evaluates a chain of `and`s whose last operand is returned; callers use its truthiness.
 * On a body of the wrong shape some of the lookups raise instead (`.get` on a non-dict,
 * `[0]` on a dict, a number or a boolean), which `Raises` records.
 */
module WhatsAppValidation {

  import opened Wrappers
  import opened Json

  /** The truthiness of the returned value, or the exception the evaluation raises. */
  datatype Verdict = Truth(valid: bool) | Raises

  /** `v.get(key)`: `None` when the key is absent; `v` must be a dict. */
  function Get(v: Json, key: string): (r: Option<Json>)
    ensures r.Some? <==> v.JObj?
    ensures v.JObj? ==> r.value == if key in v.fields then v.fields[key] else JNull
  {
    match v
    case JObj(fields) => Some(if key in fields then fields[key] else JNull)
    case _ => None
  }

  /** `v[0]` on a truthy value: the first item of a list, the first character of a string;
   *  a dict (keys are strings), a number and a boolean raise. */
  function First(v: Json): (r: Option<Json>)
    requires Truthy(v)
    ensures r.Some? <==> v.JArr? || v.JStr?
    ensures v.JArr? ==> r == Some(v.items[0])
    ensures v.JStr? ==> r == Some(JStr(v.s[..1]))
  {
    match v
    case JArr(items) => Some(items[0])
    case JStr(s) => Some(JStr(s[..1]))
    case _ => None
  }

  /** The field `key` of `v` when `v` is a dict that has it, and `null` otherwise. */
  function Field(v: Json, key: string): Json
  {
    if v.JObj? && key in v.fields then v.fields[key] else JNull
  }

  /** The path the webhook carries a message on, stated as one condition:
   *  `object` is truthy; `entry` is a non-empty list whose first element is a dict with a
   *  non-empty list `changes`; its first element is a dict whose `value` is a non-empty dict;
   *  `value.messages` is a non-empty list whose first element is truthy, or a non-empty
   *  string. */
  ghost predicate CarriesMessage(body: Json)
  {
    var entry := Field(body, "entry");
    && body.JObj? && Truthy(Field(body, "object"))
    && entry.JArr? && |entry.items| > 0 && entry.items[0].JObj?
    && var changes := Field(entry.items[0], "changes");
    && changes.JArr? && |changes.items| > 0 && changes.items[0].JObj?
    && var value := Field(changes.items[0], "value");
    && value.JObj? && Truthy(value)
    && var messages := Field(value, "messages");
    && ((messages.JArr? && |messages.items| > 0 && Truthy(messages.items[0]))
        || (messages.JStr? && |messages.s| > 0))
  }

  /** `is_valid_whatsapp_message(body)`. */
  function IsValidMessage(body: Json): (r: Verdict)
    // truthy exactly on bodies that carry a message
    ensures r == Truth(true) <==> CarriesMessage(body)
    // a dict body without `entry` is simply not a message
    ensures body.JObj? && "entry" !in body.fields ==> r == Truth(false)
    // a dict body with a falsy `object` is not a message either
    ensures body.JObj? && !Truthy(Field(body, "object")) ==> r == Truth(false)
    // a body that is not a dict raises at the first lookup
    ensures !body.JObj? ==> r == Raises
  {
    var obj := Get(body, "object");
    if obj.None? then Raises
    else if !Truthy(obj.value) then Truth(false)
    else
      var entry := Get(body, "entry").value;
      if !Truthy(entry) then Truth(false)
      else
        var entry0 := First(entry);
        if entry0.None? then Raises
        else
          var changes := Get(entry0.value, "changes");
          if changes.None? then Raises
          else if !Truthy(changes.value) then Truth(false)
          else
            var change0 := First(changes.value);
            if change0.None? then Raises
            else
              var value := Get(change0.value, "value");
              if value.None? then Raises
              else if !Truthy(value.value) then Truth(false)
              else
                var messages := Get(value.value, "messages");
                if messages.None? then Raises
                else if !Truthy(messages.value) then Truth(false)
                else
                  var message0 := First(messages.value);
                  if message0.None? then Raises
                  else Truth(Truthy(message0.value))
  }
}
