/**
 * Message types as the registry and the type-erasing box see them. A Swift
 * metatype `M.Type` is an identity: two metatypes are equal exactly when they
 * are the same type. Its only property the modelled code reads is
 * `protoMessageName`, the fully-qualified protobuf name such as
 * `google.protobuf.Duration`. Two distinct Swift types may claim the same
 * protobuf name, which is what makes a registration conflict possible.
 */
module Messages {

  datatype MessageType = MessageType(swiftName: string, protoMessageName: string)
}
