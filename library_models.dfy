/** The type-name helpers the library code generator uses: for each of the
    five value type names of a library manifest, the native C# type it
    stands for, the conversion call that turns a value into that native
    type, and the expression that wraps a native value back into a value.
    Any other type name is an unexpected value. */
module LibraryModels {
  import opened Wrappers

  /** `ExceptionUtilities.UnexpectedValue(type)`. */
  datatype GeneratorError = UnexpectedValue(value: string)

  /** The five type names a manifest may use. */
  predicate IsValueTypeName(typeName: string)
  {
    || typeName == "BaseValue"
    || typeName == "NumberValue"
    || typeName == "StringValue"
    || typeName == "BooleanValue"
    || typeName == "ArrayValue"
  }

  /** `ToNativeType`: the C# type a value type name stands for. */
  function ToNativeType(typeName: string): (r: Result<string, GeneratorError>)
    ensures r.Ok? <==> IsValueTypeName(typeName)
    ensures r.Err? ==> r.error == UnexpectedValue(typeName)
  {
    if typeName == "BaseValue" then Ok("BaseValue")
    else if typeName == "NumberValue" then Ok("decimal")
    else if typeName == "StringValue" then Ok("string")
    else if typeName == "BooleanValue" then Ok("bool")
    else if typeName == "ArrayValue" then Ok("ArrayValue")
    else Err(UnexpectedValue(typeName))
  }

  /** `ToNativeTypeConverter`: the member call that converts a value to the
      native type; none for `BaseValue`. */
  function ToNativeTypeConverter(typeName: string): (r: Result<string, GeneratorError>)
    ensures r.Ok? <==> IsValueTypeName(typeName)
    ensures r.Err? ==> r.error == UnexpectedValue(typeName)
    ensures r.Ok? && typeName != "BaseValue" ==> |r.value| > 0 && r.value[0] == '.'
  {
    if typeName == "BaseValue" then Ok("")
    else if typeName == "NumberValue" then Ok(".ToNumber()")
    else if typeName == "StringValue" then Ok(".ToString()")
    else if typeName == "BooleanValue" then Ok(".ToBoolean()")
    else if typeName == "ArrayValue" then Ok(".ToArray()")
    else Err(UnexpectedValue(typeName))
  }

  /** `ToValueConstructor`: the expression wrapping `value` (C# source text)
      into a value of the named type; `BaseValue` and `ArrayValue` are values
      already and are returned as they are. */
  function ToValueConstructor(value: string, typeName: string): (r: Result<string, GeneratorError>)
    ensures r.Ok? <==> IsValueTypeName(typeName)
    ensures r.Err? ==> r.error == UnexpectedValue(typeName)
    ensures typeName == "BaseValue" || typeName == "ArrayValue" ==> r == Ok(value)
  {
    if typeName == "BaseValue" then Ok(value)
    else if typeName == "NumberValue" then Ok("new NumberValue(" + value + ")")
    else if typeName == "StringValue" then Ok("StringValue.Create(" + value + ")")
    else if typeName == "BooleanValue" then Ok("new BooleanValue(" + value + ")")
    else if typeName == "ArrayValue" then Ok(value)
    else Err(UnexpectedValue(typeName))
  }

  /** The text around `value` that `ToValueConstructor` puts in place for a
      type name, as an independent table. */
  function Wrapping(typeName: string): (string, string)
  {
    if typeName == "NumberValue" then ("new NumberValue(", ")")
    else if typeName == "StringValue" then ("StringValue.Create(", ")")
    else if typeName == "BooleanValue" then ("new BooleanValue(", ")")
    else ("", "")
  }

  /** All three helpers accept the same five names and fail on any other. */
  lemma SameDomain(typeName: string, value: string)
    ensures ToNativeType(typeName).Ok? <==> ToNativeTypeConverter(typeName).Ok?
    ensures ToNativeTypeConverter(typeName).Ok? <==> ToValueConstructor(value, typeName).Ok?
    ensures !IsValueTypeName(typeName)
            ==> ToNativeType(typeName) == ToNativeTypeConverter(typeName) == ToValueConstructor(value, typeName)
                == Err(UnexpectedValue(typeName))
  {
  }

  /** The five names map to five different native types. */
  lemma NativeTypesAreDistinct(a: string, b: string)
    requires ToNativeType(a).Ok? && ToNativeType(b).Ok?
    requires ToNativeType(a) == ToNativeType(b)
    ensures a == b
  {
    var names := ["BaseValue", "decimal", "string", "bool", "ArrayValue"];
    assert forall i, j :: 0 <= i < j < |names| ==> names[i] != names[j] by {
      assert names[0][0] == 'B' && names[1][0] == 'd' && names[2][0] == 's' && names[3][0] == 'b' && names[4][0] == 'A';
    }
  }

  /** A wrapped value is the wrapping text around the value itself. */
  lemma ValueConstructorWraps(value: string, typeName: string)
    requires IsValueTypeName(typeName)
    ensures ToValueConstructor(value, typeName).value == Wrapping(typeName).0 + value + Wrapping(typeName).1
  {
    if typeName == "BaseValue" || typeName == "ArrayValue" {
      assert "" + value + "" == value;
    }
  }

  /** Different values give different expressions for the same type name:
      the value can be read back from between the wrapping texts. */
  lemma ValueConstructorInjective(a: string, b: string, typeName: string)
    requires IsValueTypeName(typeName)
    requires ToValueConstructor(a, typeName) == ToValueConstructor(b, typeName)
    ensures a == b
  {
    ValueConstructorWraps(a, typeName);
    ValueConstructorWraps(b, typeName);
    var (prefix, suffix) := Wrapping(typeName);
    var wa, wb := prefix + a + suffix, prefix + b + suffix;
    assert |a| == |b|;
    assert a == wa[|prefix|..|prefix| + |a|];
    assert b == wb[|prefix|..|prefix| + |b|];
  }
}
