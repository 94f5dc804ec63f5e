/** A C# reference that may be null. */
module NullableRef {

  datatype Nullable<T> = Null | NonNull(value: T)

}
