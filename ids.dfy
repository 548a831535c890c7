/** Identifier generation. The source draws identifiers from uuid.New(); the only
    property its callers rely on is that a new identifier is not yet a key of the
    collection it is added to, which is what FreshId promises. */
module Ids {

  /** Returns an identifier that is not in `used`: a run of 'x' one character
      longer than the longest identifier in `used`. */
  method FreshId(used: set<string>) returns (id: string)
    ensures id !in used
    ensures id != ""
  {
    var longest: nat := 0;
    var pending := used;
    while pending != {}
      invariant pending <= used
      invariant forall u :: u in used && u !in pending ==> |u| <= longest
      decreases pending
    {
      var u :| u in pending;
      if |u| > longest {
        longest := |u|;
      }
      pending := pending - {u};
    }
    id := seq(longest + 1, _ => 'x');
    assert |id| == longest + 1;
  }
}
