/**
 * The valid-flag protocol around message translation and handling. The
 * translator wrapper clears a message's `isValid` flag, runs the wrapped
 * translator and sets the flag only if that returned normally; the handler
 * wrapper passes a message on to the wrapped handler only when its flag is
 * set. A message whose translation failed is therefore never handled.
 */
module BaseMessages {
  import opened Wrappers

  /** A message slot: the validity flag and the application's own fields. */
  class Message<P> {
    var isValid: bool
    var payload: P

    constructor (payload: P)
      ensures !isValid && this.payload == payload
    {
      isValid := false;
      this.payload := payload;
    }
  }

  /**
   * What a wrapped translator did to a message: the fields it left, the value
   * it wrote to the flag (`None` if it did not write it), and whether it
   * returned normally or threw.
   */
  datatype Translated<P> = Returned(payload: P, flag: Option<bool>) | Threw(payload: P, flag: Option<bool>)

  /** A call received by a wrapped handler. */
  datatype Delivery<P> = Delivery(message: Message<P>, sequence: int, endOfBatch: bool)

  /** A wrapped event handler, seen only through the calls it receives. */
  class EventHandler<P> {
    var received: seq<Delivery<P>>

    constructor ()
      ensures received == []
    {
      received := [];
    }

    method OnEvent(t: Message<P>, sequence: int, endOfBatch: bool)
      modifies this
      ensures received == old(received) + [Delivery(t, sequence, endOfBatch)]
    {
      received := received + [Delivery(t, sequence, endOfBatch)];
    }
  }

  class SafeyTranslatorOneArg<P, A> {
    /**
     * The wrapped translator: given the message's fields as it finds them,
     * the sequence and the argument, what it leaves behind.
     */
    const delegate: (P, int, A) -> Translated<P>

    constructor (delegate: (P, int, A) -> Translated<P>)
      ensures this.delegate == delegate
    {
      this.delegate := delegate;
    }

    /**
     * Runs the wrapped translator once, on the same message, sequence and
     * argument, with the flag cleared; sets the flag after it returns.
     * `completed` is false when the wrapped translator threw.
     */
    method TranslateTo(t: Message<P>, sequence: int, arg: A) returns (completed: bool)
      modifies t
      ensures var step := delegate(old(t.payload), sequence, arg);
              && completed == step.Returned?
              && t.payload == step.payload
              && (completed ==> t.isValid)
              && (!completed ==> t.isValid == (step.flag == Some(true)))
    {
      t.isValid := false;
      var step := delegate(t.payload, sequence, arg);
      t.payload := step.payload;
      if step.flag.Some? {
        t.isValid := step.flag.value;
      }
      if step.Threw? {
        return false;
      }
      t.isValid := true;
      completed := true;
    }
  }

  class SafeyHandler<P> {
    const delegate: EventHandler<P>

    constructor (delegate: EventHandler<P>)
      ensures this.delegate == delegate
    {
      this.delegate := delegate;
    }

    /**
     * Skips an invalid message; passes a valid one to the wrapped handler
     * exactly once with the same sequence and end-of-batch flag. The message,
     * its flag included, is left untouched.
     */
    method OnEvent(t: Message<P>, sequence: int, endOfBatch: bool)
      modifies delegate
      ensures delegate.received == if t.isValid then old(delegate.received) + [Delivery(t, sequence, endOfBatch)]
                                   else old(delegate.received)
      ensures unchanged(t)
    {
      if !t.isValid {
        return;
      }
      delegate.OnEvent(t, sequence, endOfBatch);
    }
  }

  /**
   * A slot filled through the translator wrapper and then consumed through
   * the handler wrapper: when the wrapped translator does not write the flag,
   * the wrapped handler receives the message exactly when its translation
   * completed.
   */
  method TranslateThenHandle<P, A>(translator: SafeyTranslatorOneArg<P, A>, handler: SafeyHandler<P>,
                                   t: Message<P>, sequence: int, arg: A, endOfBatch: bool)
    returns (completed: bool)
    requires translator.delegate(t.payload, sequence, arg).flag.None?
    modifies t, handler.delegate
    ensures completed ==> handler.delegate.received == old(handler.delegate.received) + [Delivery(t, sequence, endOfBatch)]
    ensures !completed ==> handler.delegate.received == old(handler.delegate.received)
  {
    completed := translator.TranslateTo(t, sequence, arg);
    handler.OnEvent(t, sequence, endOfBatch);
  }
}
