/** The reveal-and-copy cell of the credential table
    (frontend/src/components/password-cell.tsx): it shows the ciphertext cut to 16
    characters until clicked, then asks the backend once for the plaintext, keeps
    it, copies it to the clipboard and shows it; further clicks toggle. */
module PasswordCell {
  import opened Wrappers

  const ShownPrefix := 16

  /** `${hashed.slice(0, 16)}...` */
  function DisplayHashed(hashed: string): (r: string)
    ensures |r| == (if |hashed| < ShownPrefix then |hashed| else ShownPrefix) + 3
    ensures r[|r| - 3..] == "..."
  {
    (if |hashed| < ShownPrefix then hashed else hashed[..ShownPrefix]) + "..."
  }

  /** The cut text is a prefix of the ciphertext: no more than 16 of its characters
      are ever shown, and a short one is shown whole. */
  lemma DisplayHashedShowsAPrefix(hashed: string)
    ensures var r := DisplayHashed(hashed);
      var shown := r[..|r| - 3];
      && shown <= hashed
      && |shown| <= ShownPrefix
      && (|hashed| <= ShownPrefix ==> shown == hashed)
  {
    var r := DisplayHashed(hashed);
    if |hashed| < ShownPrefix {
      assert r == hashed + "...";
    } else {
      assert r == hashed[..ShownPrefix] + "...";
    }
  }

  class PasswordCell {
    const hashedPassword: string
    var showDecrypted: bool
    var decryptedPassword: string
    /** The bodies posted to the decryption endpoint, in order. */
    var requests: seq<string>
    /** What was written to the clipboard, in order. */
    var copied: seq<string>

    constructor (hashedPassword: string)
      ensures this.hashedPassword == hashedPassword
      ensures !showDecrypted && decryptedPassword == "" && requests == [] && copied == []
    {
      this.hashedPassword := hashedPassword;
      showDecrypted := false;
      decryptedPassword := "";
      requests := [];
      copied := [];
    }

    /** The text the cell renders. */
    function Displayed(): string
      reads this
    {
      if showDecrypted then decryptedPassword else DisplayHashed(hashedPassword)
    }

    /** handleClick. `response` is what the decryption request would answer (None
        when it fails) and `clipboardOk` whether the clipboard write succeeds; both
        matter only when a request is made. An empty cached plaintext counts as no
        cache. */
    method HandleClick(response: Option<string>, clipboardOk: bool)
      modifies this
      ensures old(showDecrypted) ==>
        !showDecrypted && decryptedPassword == old(decryptedPassword) &&
        requests == old(requests) && copied == old(copied)
      ensures !old(showDecrypted) && old(decryptedPassword) != "" ==>
        showDecrypted && decryptedPassword == old(decryptedPassword) &&
        requests == old(requests) && copied == old(copied)
      ensures !old(showDecrypted) && old(decryptedPassword) == "" ==>
        && requests == old(requests) + [hashedPassword]
        && (response.None? ==> !showDecrypted && decryptedPassword == "" && copied == old(copied))
        && (response.Some? ==>
              && decryptedPassword == response.value
              && showDecrypted == clipboardOk
              && copied == old(copied) + (if clipboardOk then [response.value] else []))
    {
      if showDecrypted {
        showDecrypted := false;
      } else {
        if decryptedPassword == "" {
          requests := requests + [hashedPassword];
          if response.None? {
            return;
          }
          var decrypted := response.value;
          decryptedPassword := decrypted;
          if !clipboardOk {
            return;
          }
          copied := copied + [decrypted];
        }
        showDecrypted := true;
      }
    }
  }
}
