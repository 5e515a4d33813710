/** `Validators`: shorthands that build the rules `validateRule` interprets. An argument
    left out is `None`. */
module Validators {
  import opened Wrappers
  import opened JsValues
  import opened Validation

  /** `required(message = 'Поле обязательно для заполнения')` */
  function Required(message: Option<string> := None): (rule: Rule)
    ensures rule.kind == "required"
    ensures forall value :: ValidateRule(value, rule).Some? <==> value in {Undefined, Null, Bool(false), NaN, Str("")}
    ensures forall value :: ValidateRule(value, rule).Some? ==>
      ValidateRule(value, rule).value == OrDefault(message, RequiredMessage)
  {
    Rule("required", Params(None, Some(message.GetOr(RequiredMessage)), None, None))
  }

  /** `minLength(length, message)`: the default message names the length. */
  function MinLength(length: int, message: Option<string> := None): (rule: Rule)
    ensures rule.kind == "minLength"
    ensures forall value :: ValidateRule(value, rule).Some? <==>
      Truthy(value) && Length(value).Some? && Length(value).value < length
    ensures forall value :: ValidateRule(value, rule).Some? ==>
      ValidateRule(value, rule).value == OrDefault(message, MinLengthMessage(length))
  {
    Rule("minLength", Params(Some(length), Some(OrDefault(message, MinLengthMessage(length))), None, None))
  }

  /** `maxLength(length, message)` */
  function MaxLength(length: int, message: Option<string> := None): (rule: Rule)
    ensures rule.kind == "maxLength"
    ensures forall value :: ValidateRule(value, rule).Some? <==>
      Truthy(value) && Length(value).Some? && Length(value).value > length
    ensures forall value :: ValidateRule(value, rule).Some? ==>
      ValidateRule(value, rule).value == OrDefault(message, MaxLengthMessage(length))
  {
    Rule("maxLength", Params(Some(length), Some(OrDefault(message, MaxLengthMessage(length))), None, None))
  }

  /** `pattern(regex, message = 'Некорректный формат')`, with the regex's `test` given as
      a predicate. */
  function Pattern(regex: Value -> bool, message: Option<string> := None): (rule: Rule)
    ensures rule.kind == "pattern"
    ensures forall value :: RuleApplies(value, rule)
    ensures forall value :: ValidateRule(value, rule).Some? <==> Truthy(value) && !regex(value)
    ensures forall value :: ValidateRule(value, rule).Some? ==>
      ValidateRule(value, rule).value == OrDefault(message, PatternMessage)
  {
    Rule("pattern", Params(None, Some(message.GetOr(PatternMessage)), Some(regex), None))
  }

  /** `custom(validator, message = 'Некорректное значение')` */
  function Custom(validator: Value -> bool, message: Option<string> := None): (rule: Rule)
    ensures rule.kind == "custom"
    ensures forall value :: ValidateRule(value, rule).Some? <==> !validator(value)
    ensures forall value :: ValidateRule(value, rule).Some? ==>
      ValidateRule(value, rule).value == OrDefault(message, CustomMessage)
  {
    Rule("custom", Params(None, Some(message.GetOr(CustomMessage)), None, Some(validator)))
  }
}
