/**
 * `AnyMessage`, the type-erasing wrapper around a message of any generated
 * type, and the `_ConcreteAnyMessageBox` behind it.
 *
 * A message value is modelled by its concrete type (a `MessageType`) and a
 * value of the type parameter `V`. What the box asks of the message, its
 * `isEqualTo(message:)` and its `hashValue`, is code generated per message
 * type and not part of this model, so it comes in as a `MessageOps` record of
 * two functions, each indexed by the concrete type.
 */
module AnyMessages {
  import opened Ints
  import opened Wrappers
  import opened Messages

  /** A value of the existential `Message`: its dynamic type and the value itself. */
  datatype MessageValue<V> = MessageValue(messageType: MessageType, value: V)

  /** The per-type equality and hash that the generated message types provide. */
  datatype MessageOps<!V> = MessageOps(isEqualTo: (MessageType, V, V) -> bool, hashValue: (MessageType, V) -> int64)

  /** `_ConcreteAnyMessageBox<M>`: a message stored at its concrete type `M`. */
  datatype ConcreteAnyMessageBox<V> = ConcreteAnyMessageBox(messageType: MessageType, baseMessage: V) {

    /** `_message`: the stored message, as a value of the existential type. */
    function Message(): (m: MessageValue<V>)
      ensures m.messageType == messageType && m.value == baseMessage
    {
      MessageValue(messageType, baseMessage)
    }

    /** `_unbox<T>()`: the stored message when `T` is the box's type, nil otherwise. */
    function Unbox(t: MessageType): (r: Option<V>)
      ensures r.Some? <==> t == messageType
      ensures r.Some? ==> r.value == baseMessage
    {
      if t == messageType then Some(baseMessage) else None
    }

    /**
     * `_isEqual(to:)`: nil when the other box holds another type; otherwise
     * this type's `isEqualTo` applied to the two stored messages.
     */
    function IsEqual(rhs: ConcreteAnyMessageBox<V>, ops: MessageOps<V>): (r: Option<bool>)
      ensures r.None? <==> rhs.messageType != messageType
      ensures r.Some? ==> r.value == ops.isEqualTo(messageType, baseMessage, rhs.baseMessage)
    {
      match rhs.Unbox(messageType)
      case Some(other) => Some(ops.isEqualTo(messageType, baseMessage, other))
      case None => None
    }

    /** `_hashValue`: the stored message's own hash. */
    function HashValue(ops: MessageOps<V>): (h: int64)
      ensures h == ops.hashValue(messageType, baseMessage)
    {
      ops.hashValue(messageType, baseMessage)
    }
  }

  /** `AnyMessage`: one box, whatever its concrete type. */
  datatype AnyMessage<V> = AnyMessage(box: ConcreteAnyMessageBox<V>) {

    /** `message`: what the box stores. */
    function Message(): (m: MessageValue<V>)
      ensures m == box.Message()
    {
      box.Message()
    }

    /** `==`: `_isEqual(to:)`, with nil, a type mismatch, read as not equal. */
    function Equals(rhs: AnyMessage<V>, ops: MessageOps<V>): (r: bool)
      ensures r ==> box.messageType == rhs.box.messageType
      ensures box.messageType == rhs.box.messageType ==>
        r == ops.isEqualTo(box.messageType, box.baseMessage, rhs.box.baseMessage)
    {
      box.IsEqual(rhs.box, ops).GetOr(false)
    }

    /** `hashValue`: the box's hash, which is the message's. */
    function HashValue(ops: MessageOps<V>): (h: int64)
      ensures h == ops.hashValue(box.messageType, box.baseMessage)
    {
      box.HashValue(ops)
    }
  }

  /** `AnyMessage.init(_:)`: boxes a message at its concrete type. */
  function Wrap<V>(messageType: MessageType, message: V): (a: AnyMessage<V>)
    ensures a.box.messageType == messageType
  {
    AnyMessage(ConcreteAnyMessageBox(messageType, message))
  }

  /**
   * Wrapping and then reading `message` gives back the message at its type,
   * and unboxing yields it exactly at that type.
   */
  lemma WrapRoundTrip<V>(messageType: MessageType, message: V, t: MessageType)
    ensures Wrap(messageType, message).Message() == MessageValue(messageType, message)
    ensures Wrap(messageType, message).box.Unbox(t) == if t == messageType then Some(message) else None
  {
  }

  /** Messages of different concrete types are never equal, whatever their values. */
  lemma DifferentTypesNeverEqual<V>(x: AnyMessage<V>, y: AnyMessage<V>, ops: MessageOps<V>)
    requires x.box.messageType != y.box.messageType
    ensures !x.Equals(y, ops) && !y.Equals(x, ops)
  {
  }

  /** Every message type's hash agrees on the values its `isEqualTo` identifies. */
  ghost predicate HashesAgree<V(!new)>(ops: MessageOps<V>) {
    forall t, a, b :: ops.isEqualTo(t, a, b) ==> ops.hashValue(t, a) == ops.hashValue(t, b)
  }

  /** `AnyMessage.hashValue` agrees on the values `==` identifies. */
  ghost predicate AnyHashesAgree<V(!new)>(ops: MessageOps<V>) {
    forall x: AnyMessage<V>, y: AnyMessage<V> :: x.Equals(y, ops) ==> x.HashValue(ops) == y.HashValue(ops)
  }

  /** `AnyMessage` keeps the `Hashable` contract exactly when every wrapped type keeps it. */
  lemma HashConsistency<V(!new)>(ops: MessageOps<V>)
    ensures AnyHashesAgree(ops) <==> HashesAgree(ops)
  {
    if AnyHashesAgree(ops) {
      forall t, a, b | ops.isEqualTo(t, a, b)
        ensures ops.hashValue(t, a) == ops.hashValue(t, b)
      {
        assert Wrap(t, a).Equals(Wrap(t, b), ops);
      }
    }
  }

  /** `isEqualTo` is an equivalence on the values of every message type. */
  ghost predicate IsEqualToIsEquivalence<V(!new)>(ops: MessageOps<V>) {
    && (forall t, a :: ops.isEqualTo(t, a, a))
    && (forall t, a, b :: ops.isEqualTo(t, a, b) ==> ops.isEqualTo(t, b, a))
    && (forall t, a, b, c :: ops.isEqualTo(t, a, b) && ops.isEqualTo(t, b, c) ==> ops.isEqualTo(t, a, c))
  }

  /** `==` on `AnyMessage` is an equivalence. */
  ghost predicate EqualsIsEquivalence<V(!new)>(ops: MessageOps<V>) {
    && (forall x: AnyMessage<V> :: x.Equals(x, ops))
    && (forall x: AnyMessage<V>, y: AnyMessage<V> :: x.Equals(y, ops) ==> y.Equals(x, ops))
    && (forall x: AnyMessage<V>, y: AnyMessage<V>, z: AnyMessage<V> ::
          x.Equals(y, ops) && y.Equals(z, ops) ==> x.Equals(z, ops))
  }

  /** `AnyMessage` keeps the `Equatable` contract exactly when every wrapped type's `isEqualTo` does. */
  lemma EquivalenceConsistency<V(!new)>(ops: MessageOps<V>)
    ensures EqualsIsEquivalence(ops) <==> IsEqualToIsEquivalence(ops)
  {
    if EqualsIsEquivalence(ops) {
      forall t, a
        ensures ops.isEqualTo(t, a, a)
      {
        assert Wrap(t, a).Equals(Wrap(t, a), ops);
      }
      forall t, a, b | ops.isEqualTo(t, a, b)
        ensures ops.isEqualTo(t, b, a)
      {
        assert Wrap(t, a).Equals(Wrap(t, b), ops);
        assert Wrap(t, b).Equals(Wrap(t, a), ops);
      }
      forall t, a, b, c | ops.isEqualTo(t, a, b) && ops.isEqualTo(t, b, c)
        ensures ops.isEqualTo(t, a, c)
      {
        assert Wrap(t, a).Equals(Wrap(t, b), ops) && Wrap(t, b).Equals(Wrap(t, c), ops);
        assert Wrap(t, a).Equals(Wrap(t, c), ops);
      }
    }
  }
}
