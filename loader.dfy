/**
 * `ModelLoader`, the context manager around one model's lifetime: entering
 * it tries to load the weights, leaving it releases them if they were loaded.
 */
module Loader {
  import opened Wrappers

  /** A loaded model: the inference engine's handle on the weights at `modelPath`. */
  datatype Llm = Llm(modelPath: string)

  class ModelLoader {
    const path: string
    /** `self.llm`: the loaded model, or `None` when nothing is loaded. */
    var llm: Option<Llm>

    /** `__init__`: nothing is loaded yet. */
    constructor (path: string)
      ensures this.path == path && llm == None
    {
      this.path := path;
      llm := None;
    }

    /**
     * `__enter__`: whether the engine accepts the weights is the input
     * `loadSucceeds`. A failed load leaves the loader as it was and hands back
     * `None`; a successful one holds and returns the handle.
     */
    method Enter(loadSucceeds: bool) returns (handle: Option<Llm>)
      modifies this
      ensures llm == (if loadSucceeds then Some(Llm(path)) else old(llm))
      ensures handle == (if loadSucceeds then Some(Llm(path)) else None)
    {
      if loadSucceeds {
        llm := Some(Llm(path));
        handle := llm;
      } else {
        handle := None;
      }
    }

    /** `__exit__`: release only when a model is held; afterwards nothing is held. */
    method Exit() returns (released: bool)
      modifies this
      ensures released <==> old(llm).Some?
      ensures llm == None
    {
      released := llm.Some?;
      if released {
        llm := None;
      }
    }
  }
}
