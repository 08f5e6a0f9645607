/**
 * `Options`: the handler's five settings.  The logger is outside the model and is named by an
 * identity; it is the only setting that may be null.
 */
module HandlerOptions {
  import opened Wrappers

  datatype Options = Options(
    debug: bool,
    logger: Option<nat>,
    scream: bool,
    throwErrorExceptions: int,   // a disjunction of `E_*` bits; -1 for all, 0 for none
    returnErrors: int)           // likewise

  /** `new Options()`: the property defaults. */
  function Defaults(): (o: Options)
    ensures !o.debug && o.logger.None? && !o.scream
    ensures o.throwErrorExceptions == 0 && o.returnErrors == 0
  {
    Options(false, None, false, 0, 0)
  }

  /**
   * The merge loop of `Handler::options`: each of the receiver's settings is copied into `o`
   * where `o`'s is not set; `isset` fails only on null, and only `logger` can be null.
   */
  function Merge(o: Options, prior: Options): (r: Options)
    ensures r.logger == (if o.logger.Some? then o.logger else prior.logger)
    ensures r.(logger := o.logger) == o
  {
    if o.logger.None? then o.(logger := prior.logger) else o
  }

  /** A set logger is kept whatever the receiver had; every other setting always comes from `o`. */
  lemma MergeKeepsGiven(o: Options, prior: Options)
    requires o.logger.Some?
    ensures Merge(o, prior) == o
  {
  }

  /** Merging twice over the same receiver changes nothing more. */
  lemma MergeIdempotent(o: Options, prior: Options)
    ensures Merge(Merge(o, prior), prior) == Merge(o, prior)
  {
  }

  /** Inheriting from the defaults is the identity. */
  lemma MergeDefaults(o: Options)
    ensures Merge(o, Defaults()) == o
  {
  }
}
