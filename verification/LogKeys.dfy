/** The key tables of utils/logging.py and what follows for them from the general redactor. */
module LogKeys {
  import opened Text
  import opened LogRedact

  const AUTH_PARTS: set<string> := {
    "password", "passwd", "pin", "otp", "token", "secret", "authorization", "auth", "credential", "signature",
    "apikey", "api_key", "private", "bvn", "nin"
  }

  const ACCOUNT_PARTS: set<string> := {
    "email", "phone", "msisdn", "mobile", "account_number", "accountnumber", "accountno", "acctno", "nuban",
    "card", "pan", "cvv", "cvc", "expiry", "dob"
  }

  const NAME_PARTS: set<string> := {
    "date_of_birth", "first_name", "last_name", "middle_name", "fullname", "full_name", "customer_name",
    "customername", "account_name", "accountname", "receiver_name", "receivername", "sender_name",
    "sendername", "firstname"
  }

  const PERSON_PARTS: set<string> := {
    "lastname", "middlename", "surname", "othername", "address", "street", "postal", "selfie", "image",
    "base64", "document", "signature_url", "login_pin", "otp_code", "transaction_pin"
  }

  const TOKEN_PARTS: set<string> := {
    "re_password", "old_pin", "new_pin", "old_password", "new_password", "new_login_pin", "access_token",
    "refresh_token", "csrfmiddlewaretoken", "accessToken", "expiresIn", "profile_image", "front_id_url",
    "back_id_url", "bill_proof_url"
  }

  const IMAGE_PARTS: set<string> := {
    "user_signature_url", "address_base64", "id_image", "selfie_image", "liveness_image1", "liveness_image2",
    "liveness_image3", "liveness_image4", "liveness_image5", "liveness_image6", "liveness_image7",
    "cac_doc_image", "bill_image"
  }

  /** The entries of the tuple, in six groups. */
  const SENSITIVE_KEY_PARTS := AUTH_PARTS + ACCOUNT_PARTS + NAME_PARTS + PERSON_PARTS + TOKEN_PARTS + IMAGE_PARTS

  const SAFE_KEY_EXACT: set<string> := {
    "bank_name", "biller_name", "institution_name", "event_name", "task_name", "template_name", "field_name",
    "file_name", "filename", "account_type", "card_type", "phone_verified", "email_verified", "has_pin",
    "pin_set", "auth_type", "token_type"
  }

  const POLICY := Policy(SAFE_KEY_EXACT, SENSITIVE_KEY_PARTS)

  predicate Worded(part: string) { part != "" && part[0] != '.' }

  lemma AuthPartsAreWords()
    ensures forall part | part in AUTH_PARTS :: Worded(part)
  {}

  lemma AccountPartsAreWords()
    ensures forall part | part in ACCOUNT_PARTS :: Worded(part)
  {}

  lemma NamePartsAreWords()
    ensures forall part | part in NAME_PARTS :: Worded(part)
  {}

  lemma PersonPartsAreWords()
    ensures forall part | part in PERSON_PARTS :: Worded(part)
  {}

  lemma TokenPartsAreWords()
    ensures forall part | part in TOKEN_PARTS :: Worded(part)
  {}

  lemma ImagePartsAreWords()
    ensures forall part | part in IMAGE_PARTS :: Worded(part)
  {}

  lemma DotsHoldNoWord(part: string)
    requires Worded(part)
    ensures !Contains(Lower("..."), part)
  {
    var lowered := Lower("...");
    forall i | 0 <= i <= |lowered| ensures !(part <= lowered[i..]) {
      if i < |lowered| { assert lowered[i..][0] == '.'; }
    }
  }

  /** The notice key of a truncated dict is not itself redacted. */
  lemma NoticeKeyIsSafe()
    ensures !IsSensitiveKey(POLICY, StrKey("..."))
  {
    AuthPartsAreWords();
    AccountPartsAreWords();
    NamePartsAreWords();
    PersonPartsAreWords();
    TokenPartsAreWords();
    ImagePartsAreWords();
    forall part | part in SENSITIVE_KEY_PARTS ensures !Contains(Lower("..."), part) { DotsHoldNoWord(part); }
  }

  /** `redact(value)` as the formatters call it: sealed, at most 7 levels of at most 51 entries. */
  lemma RedactIsBounded(v: Value)
    ensures Bounded(POLICY, Redact(POLICY, v, 0), 0)
  {
    NoticeKeyIsSafe();
    RedactBounded(POLICY, v, 0);
  }

  // ---- key parts that can never match ------------------------------------------

  predicate HasUpper(s: string) { exists k | 0 <= k < |s| :: 'A' <= s[k] <= 'Z' }

  /** Keys are lowered before the search, so a part spelled with a capital matches no key. */
  lemma CapitalPartsAreDead(text: string, part: string)
    requires HasUpper(part)
    ensures !Contains(Lower(text), part)
  {
    var k :| 0 <= k < |part| && 'A' <= part[k] <= 'Z';
    var lowered := Lower(text);
    forall i | 0 <= i <= |lowered| ensures !(part <= lowered[i..]) {
      if k < |lowered[i..]| { assert lowered[i..][k] == lowered[i + k]; }
    }
  }

  /** Two listed parts are spelled that way; the redactor behaves as if they were not listed. */
  lemma CapitalPartsChangeNothing(key: Key)
    ensures {"accessToken", "expiresIn"} <= SENSITIVE_KEY_PARTS
    ensures IsSensitiveKey(POLICY, key) <==>
            Lower(key.text) !in SAFE_KEY_EXACT
            && exists part | part in SENSITIVE_KEY_PARTS - {"accessToken", "expiresIn"} ::
                 Contains(Lower(key.text), part)
  {
    assert "accessToken"[6] == 'T' && "expiresIn"[7] == 'I';
    CapitalPartsAreDead(key.text, "accessToken");
    CapitalPartsAreDead(key.text, "expiresIn");
  }
}
