/** Symbolic cryptography: app/core/security.py with the primitives as free constructors. */
module Security {
  import opened Wrappers

  type Nonce = nat

  /** What a TEXT column can hold: readable text, or a Fernet token around some other content. */
  datatype Content = Text(text: string) | Cipher(nonce: Nonce, body: Content)

  /** How many encryption layers lie around the readable text. */
  function Layers(c: Content): nat {
    match c
    case Text(_) => 0
    case Cipher(_, body) => 1 + Layers(body)
  }

  /** Fernet encryption is randomised: the nonce is chosen by the environment. */
  function EncryptContent(c: Content, nonce: Nonce): Content {
    Cipher(nonce, c)
  }

  /** None stands for the DecryptionError that Fernet's InvalidToken is turned into. */
  function DecryptContent(c: Content): Option<Content> {
    match c
    case Text(_) => None
    case Cipher(_, body) => Some(body)
  }

  /** SHA-256 as a free constructor: deterministic and collision-free. */
  datatype Digest<T> = Sha256(preimage: T)

  /** The raw share token drawn from the system's random source. */
  type RawToken = nat

  function HashShareToken(raw: RawToken): Digest<RawToken> {
    Sha256(raw)
  }
}
