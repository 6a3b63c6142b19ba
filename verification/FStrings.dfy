/** The context of an f-string that the lexer has entered and not yet left. */
module FStrings {
  import opened Tokens

  datatype FString = FString(flags: Flags, nesting: nat, formatSpecDepth: nat) {
    /** The brackets opened since the f-string began. */
    function OpenCount(current: nat): nat {
      if current >= nesting then current - nesting else 0
    }

    /** In a replacement field, as opposed to literal text or a format specification. */
    predicate InExpression(current: nat) {
      OpenCount(current) > formatSpecDepth
    }

    predicate InFormatSpec(current: nat) {
      formatSpecDepth > 0 && !InExpression(current)
    }

    /** Whether a colon here begins a format specification. */
    predicate StartsFormatSpec(current: nat) {
      OpenCount(current) == formatSpecDepth + 1
    }

    function TryStartFormatSpec(current: nat): FString {
      if StartsFormatSpec(current) then this.(formatSpecDepth := formatSpecDepth + 1) else this
    }

    function TryEndFormatSpec(current: nat): FString {
      if InFormatSpec(current) then this.(formatSpecDepth := formatSpecDepth - 1) else this
    }
  }

  /** A format specification begins at the brackets of its replacement field and no further inside, turns the field's
      rest into literal text, in which a further bracket opens a field again, and leaves the f-string as it was when it
      ends. */
  lemma SpecificationsAreText(f: FString, current: nat)
    requires f.nesting + f.formatSpecDepth <= current
    ensures f.InExpression(current) <==> current > f.nesting + f.formatSpecDepth
    ensures f.StartsFormatSpec(current) <==> current > 0 && f.InExpression(current) && !f.InExpression(current - 1)
    ensures f.StartsFormatSpec(current) ==>
              var t := f.TryStartFormatSpec(current);
              && t.InFormatSpec(current) && !t.InExpression(current) && t.InExpression(current + 1)
              && t.TryEndFormatSpec(current) == f && t.flags == f.flags
    ensures !f.StartsFormatSpec(current) ==> f.TryStartFormatSpec(current) == f
    ensures !f.InFormatSpec(current) ==> f.TryEndFormatSpec(current) == f
  {
  }
}
