/** `Handler`: an ordered list of callables run on a request context,
    plus an id drawn from a counter shared by all handlers. The callables
    are opaque tokens; running one is recorded by appending its token to
    a trace. */
module Handlers {

  /** A wrapped `std::function<void(Context&)>`, known only by identity. */
  datatype Callable = Callable(token: int)

  /** A handler value, as the routing tables store it (by copy). */
  datatype Handler = Handler(callables: seq<Callable>, id: int)

  /** The static `handler_id_counter`, initialised to 0. */
  class IdCounter {
    var value: int

    constructor ()
      ensures value == 0
    {
      value := 0;
    }
  }

  /** The variadic constructor: takes `++handler_id_counter` as its id and
      wraps the callables in argument order. With no callable at all the
      non-template default constructor is chosen instead, see
      `DefaultHandler`. */
  method NewHandler(ids: IdCounter, fs: seq<Callable>) returns (h: Handler)
    requires |fs| > 0
    modifies ids
    ensures ids.value == old(ids.value) + 1
    ensures h.id == ids.value && h.id > old(ids.value)
    ensures h.callables == fs
  {
    ids.value := ids.value + 1;
    h := Handler(fs, ids.value);
  }

  /** `Handler()`: no callables; its id is left uninitialised in the
      source, so it is whatever the caller supplies here. */
  function DefaultHandler(garbage: int): (h: Handler)
    ensures !Truthy(h)
  {
    Handler([], garbage)
  }

  /** `operator bool`: whether there is anything to run. */
  predicate Truthy(h: Handler) {
    |h.callables| != 0
  }

  /** `append`: one more callable at the end; the id stays. */
  function Append(h: Handler, f: Callable): (r: Handler)
    ensures |r.callables| == |h.callables| + 1
    ensures r.callables[..|h.callables|] == h.callables && r.callables[|h.callables|] == f
    ensures r.id == h.id && Truthy(r)
  {
    h.(callables := h.callables + [f])
  }

  /** `operator()`: runs each callable once, in list order. */
  method Invoke(h: Handler, trace: seq<Callable>) returns (trace': seq<Callable>)
    ensures trace' == trace + h.callables
  {
    trace' := trace;
    for i := 0 to |h.callables|
      invariant trace' == trace + h.callables[..i]
    {
      trace' := trace' + [h.callables[i]];
    }
  }

  /** `operator<`: by id only. */
  predicate Less(a: Handler, b: Handler) {
    a.id < b.id
  }

  /** `operator==`: neither is less; it compares ids, not callables. */
  function Eq(a: Handler, b: Handler): (r: bool)
    ensures r <==> a.id == b.id
  {
    !Less(a, b) && !Less(b, a)
  }

  /** `operator!=`: one of the two is less; exactly "not `==`". */
  function Neq(a: Handler, b: Handler): (r: bool)
    ensures r <==> !Eq(a, b)
    ensures r <==> a.id != b.id
  {
    Less(a, b) || Less(b, a)
  }

  /** `<` is a strict order on handlers and `==` its incomparability. */
  lemma LessIsStrictOrder(a: Handler, b: Handler, c: Handler)
    ensures !Less(a, a)
    ensures Less(a, b) && Less(b, c) ==> Less(a, c)
    ensures Less(a, b) || Less(b, a) || Eq(a, b)
  {
  }

  /** Two handlers with the same id but different callables are `==`. */
  lemma EqIgnoresCallables(h: Handler, cs: seq<Callable>)
    ensures Eq(h, h.(callables := cs))
    ensures cs != h.callables ==> h != h.(callables := cs)
  {
  }
}
