/** The script's global warning and error counters. */
module Diagnostics {

  /** g_warningCount and g_errorCount. warning() and error() also print
      their message; the model keeps the counts only. */
  class RunContext {
    var warnings: nat
    var errors: nat

    /** Both counters start at zero. */
    constructor ()
      ensures warnings == 0 && errors == 0
    {
      warnings := 0;
      errors := 0;
    }

    /** warning(): one more warning, errors untouched. */
    method Warning()
      modifies this
      ensures warnings == old(warnings) + 1 && errors == old(errors)
    {
      warnings := warnings + 1;
    }

    /** error(): one more error, warnings untouched. */
    method Error()
      modifies this
      ensures errors == old(errors) + 1 && warnings == old(warnings)
    {
      errors := errors + 1;
    }
  }
}
