/** Types shared by every part of the backend model: optional values and
    results, the JSON values that request bodies decode to, document ids,
    HTTP responses, and the PHP library functions the code calls but that
    are not modelled (HMAC, bcrypt, JSON, HTML sanitising, e-mail syntax). */
module Common {

  datatype Option<T> = None | Some(value: T) {
    function GetOr(default: T): T {
      match this
      case Some(v) => v
      case None => default
    }
  }

  datatype Result<T, E> = Ok(value: T) | Err(error: E)

  /** A MongoDB document id as the API exposes it: `(string)$_id`. */
  type Id = string

  predicate IsHexDigit(c: char) {
    ('0' <= c <= '9') || ('a' <= c <= 'f') || ('A' <= c <= 'F')
  }

  /** What `new MongoDB\BSON\ObjectId($id)` accepts: 24 hexadecimal digits.
      Any other string makes the constructor throw. */
  predicate ValidObjectId(s: string) {
    |s| == 24 && forall i :: 0 <= i < |s| ==> IsHexDigit(s[i])
  }

  /** The character class `[a-f0-9]`: lower-case hexadecimal only. */
  predicate IsLowerHex(c: char) {
    ('0' <= c <= '9') || ('a' <= c <= 'f')
  }

  /** An id as `(string)$_id` prints it: 24 lower-case hexadecimal digits. */
  predicate LowerId(s: string) {
    |s| == 24 && forall i :: 0 <= i < |s| ==> IsLowerHex(s[i])
  }

  function LowerDigit(c: char): (r: char)
    ensures IsHexDigit(c) ==> IsLowerHex(r)
    ensures IsLowerHex(c) ==> r == c
  {
    if 'A' <= c <= 'F' then (c as int + 32) as char else c
  }

  /** The id an ObjectId round-trips to: the constructor parses the digits
      and the string conversion prints them in lower case, so a document is
      stored, and found, under this spelling of the id. */
  function Canonical(s: string): (r: string)
    ensures |r| == |s| && forall i :: 0 <= i < |s| ==> r[i] == LowerDigit(s[i])
    ensures ValidObjectId(s) ==> LowerId(r)
    ensures LowerId(s) ==> r == s && ValidObjectId(s)
  {
    seq(|s|, i requires 0 <= i < |s| => LowerDigit(s[i]))
  }

  /** The `findById` idiom shared by all models: a malformed id throws inside
      the ObjectId constructor, the exception is caught and null returned;
      a well-formed id is looked up in any letter case, and an unknown one
      also gives null. */
  function Find<T>(docs: map<Id, T>, id: string): (r: Option<T>)
    ensures r.Some? <==> ValidObjectId(id) && Canonical(id) in docs
    ensures r.Some? ==> r.value == docs[Canonical(id)]
  {
    if ValidObjectId(id) && Canonical(id) in docs then Some(docs[Canonical(id)]) else None
  }

  /** The lookup ignores the letter case of the id: an id and its
      lower-case spelling find the same document. */
  lemma FindIgnoresCase<T>(docs: map<Id, T>, id: string)
    ensures Find(docs, id) == Find(docs, Canonical(id))
  {
    if ValidObjectId(id) {
      assert LowerId(Canonical(id));
    }
  }

  /** Values produced by `json_decode($input, true)`. JSON numbers are
      modelled as integers (prices are integer cents). */
  datatype Json =
    | JNull
    | JBool(b: bool)
    | JNum(n: int)
    | JStr(s: string)
    | JArr(elems: seq<Json>)
    | JObj(fields: map<string, Json>)

  /** A decoded request body. */
  type Body = map<string, Json>

  /** PHP `isset($data[$field])`: present and not null. */
  predicate IsSet(data: Body, field: string) {
    field in data && data[field] != JNull
  }

  /** A JSON response: the HTTP status code, the envelope's `message`,
      the field-to-message `errors` map, and the optional `data`. */
  datatype Response<T> = Response(code: int, message: string, errors: map<string, string>, data: Option<T>)

  function Fail<T>(code: int, message: string): Response<T> {
    Response(code, message, map[], None)
  }

  /** The outcome of a middleware check: carry on, or stop the request
      with an error status and message. */
  datatype Gate = Pass | Halt(code: int, message: string)

  newtype uint8 = x: int | 0 <= x < 256
  type Bytes = seq<uint8>

  /** A value of a decoded token payload. */
  datatype Value = Num(n: int) | Text(s: string) | Null

  /** A token payload: `json_decode($payload, true)` of an object. */
  type Claims = map<string, Value>

  /** The PHP functions the code calls but whose behaviour is not modelled,
      as uninterpreted total functions. */
  datatype Runtime = Runtime(
    sanitize: string -> string,              // Validator::sanitizeString: htmlspecialchars(strip_tags(trim(s)))
    isEmail: string -> bool,                 // filter_var($s, FILTER_VALIDATE_EMAIL) !== false
    passwordHash: string -> string,          // password_hash($s, PASSWORD_BCRYPT)
    passwordVerify: (string, string) -> bool, // password_verify($plain, $hash)
    jsonEncode: Claims -> Bytes,             // json_encode of a payload
    jsonDecode: Bytes -> Option<Claims>,     // json_decode($s, true); None when the text is not a JSON object
    hmacSha256: (string, string) -> Bytes    // hash_hmac('sha256', $msg, $key, true), arguments (key, msg)
  )
}
