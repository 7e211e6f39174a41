# GoldElite token vault and app gates, in Dafny

This project models the security core of the GoldElite private-banking
front end (the GoldPayments repository). The core has four parts:

- **Token encryption** (`utils/crypto.ts`). A fixed master key is
  normalised to 32 characters, UTF-8 encoded and imported as a raw AES-GCM
  key. `encryptToken` encrypts a string under a fresh 12-byte IV and
  returns both the ciphertext and the IV as base64. `decryptToken` reverses
  that.
- **The lock gate and the bank-sync handler** (`App.tsx`). The app starts
  on the biometric lock screen and reaches the dashboard only through the
  lock screen's unlock callback. `handlePlaidSuccess` closes the bank modal.
  Then, inside one `try`, it encrypts a mock access token and stores it with
  `localStorage.setItem`. When both succeed, it shows a toast for four
  seconds, prepends one fixed 450 000 MXN credit to the transaction list and
  credits the wallet by the same amount. When either throws, the `catch`
  only logs, so the two failures look alike.
- **The bank-linking wizard** (`components/PlaidConnection.tsx`). A
  three-step machine of `step` and `loading`, driven by buttons and delayed
  timers. It ends by handing a `public-sandbox-` token to `onSuccess`.
- **The biometric lock screen** (`components/BiometricSecurity.tsx`). A
  `scanning`/`success` machine: one click starts a scan, the scan timer
  declares success, and a second timer calls the unlock callback.

## Modules

- `jstext.dfy` (`JsText`): JavaScript strings as sequences of UTF-16 code
  units, and the host behaviour the crypto code relies on:
  - TextEncoder: lone surrogates become U+FFFD, then UTF-8;
  - TextDecoder's byte-order-mark stripping;
  - `String.fromCharCode`, `charCodeAt` and `Uint8Array` conversions.
- `base64.dfy` (`Base64`):
  - `btoa` as the padded base64 of section 4 of RFC 4648;
  - `atob` as the forgiving-base64 decoder of the WHATWG Infra Standard: ASCII whitespace removed, up to two `=` stripped when the length is a multiple of four, a remainder of one rejected, other characters rejected.
- `crypto.dfy` (`TokenCrypto`):
  - key normalisation and raw AES key import (128, 192 or 256 bits, otherwise `DataError`);
  - `encryptToken` and `decryptToken`.

  AES-GCM itself and UTF-8 decoding are the two functions of a `Platform` parameter. The round trip is proved under named hypotheses about them:
  - `AeadCorrect`: opening what was sealed under the same key and IV gives the plaintext back;
  - `TagAppended`: the ciphertext is 16 bytes longer than the plaintext;
  - `DecoderCorrect`: decoding inverts UTF-8 encoding.

  `TokenCrypto.PlatformHypothesesSatisfiable` shows that one platform meets all three, so the round trip is not vacuous.
- `types.dfy` (`Types`): the records and enumerations of `types.ts`.
- `app.dfy`, `plaid.dfy`, `biometric.dfy` (`App`, `Plaid`, `Biometric`): each component is modelled three times over:
  - a pure `Step` function over a state value in which pending timers are counters and callback calls are recorded;
  - `Run` over event sequences, with lemmas by induction over all traces;
  - a class whose fields are the component's state, with one method per handler or timer, each proved to move its fields exactly as `Step` does.

The rules for events:

- A click on a disabled or unrendered button changes nothing.
- A timer event with no timer of that kind pending changes nothing.

## Model

| member | source | states |
|---|---|---|
| JsText.CombineSurrogates | utils/crypto.ts:34 | a high and a low surrogate combine into one supplementary code point, U+10000 to U+10FFFF |
| JsText.ToUsv | utils/crypto.ts:34 | the USVString conversion yields one scalar value for every one or two code units |
| JsText.CharToUtf16 | utils/crypto.ts:54 | a code point becomes one non-surrogate code unit below U+10000, or a surrogate pair above it |
| JsText.CharToUtf16RoundTrip | utils/crypto.ts:54 | reading the UTF-16 form of one code point gives that code point back |
| JsText.UsvUtf16RoundTrip | utils/crypto.ts:54 | a decoded string of code points, written as UTF-16, is well formed and reads back as the same code points |
| JsText.Utf16UsvRoundTrip | utils/crypto.ts:34 | a well-formed JavaScript string, read as code points and written back as UTF-16, is unchanged |
| JsText.AsciiToUtf16 | utils/crypto.ts:12 | an ASCII text has one code unit per character, equal to its code |
| JsText.AsciiText | utils/crypto.ts:12 | an ASCII literal as a JavaScript string has the same length, and each unit is its character's code |
| JsText.Utf8Char | utils/crypto.ts:34 | UTF-8 takes 1 to 4 bytes per code point, and 1 exactly for ASCII |
| JsText.Utf8Encode | utils/crypto.ts:34 | UTF-8 takes one to four bytes per scalar value, and the output is as long as the text exactly when the text is ASCII |
| JsText.Utf8BomChar | utils/crypto.ts:54 | the UTF-8 form of a code point starts EF BB BF exactly when it is U+FEFF |
| JsText.Utf8LeadByte | utils/crypto.ts:54 | the first byte of a character's UTF-8 sequence tells its length |
| JsText.Utf8CharInjective | utils/crypto.ts:54 | two characters with the same UTF-8 sequence are the same |
| JsText.Utf8EncodeInjective | utils/crypto.ts:54 | two texts with the same UTF-8 encoding are the same, so a correct decoder exists |
| JsText.Utf8EncodeBom | utils/crypto.ts:54 | UTF-8 output starts with a byte order mark exactly when the text starts with U+FEFF, and the rest encodes the rest |
| JsText.TextEncode | utils/crypto.ts:16 | TextEncoder's output starts with a UTF-8 byte order mark exactly when the string starts with the unit 0xFEFF |
| JsText.TextEncodeLength | utils/crypto.ts:16 | TextEncoder yields at least one byte per code unit, exactly one for ASCII text, where the bytes are the code units |
| JsText.FromCharCodes | utils/crypto.ts:38-39 | String.fromCharCode on bytes gives one code unit per byte, equal to it |
| JsText.CharCodes | utils/crypto.ts:45-46 | charCodeAt over the split string gives one number per code unit, equal to it |
| JsText.ToUint8Array | utils/crypto.ts:45-46 | a Uint8Array built from numbers holds each one modulo 256 |
| JsText.BinaryBytes | utils/crypto.ts:45-46 | the bytes of a binary string are its code units |
| JsText.BytesCharCodesRoundTrip | utils/crypto.ts:38-46 | bytes turned into a string with fromCharCode and back into a Uint8Array with charCodeAt are unchanged |
| JsText.CharCodesBytesRoundTrip | utils/crypto.ts:45-46 | a binary string turned into bytes and back with fromCharCode is unchanged |
| Base64.SextetValue | utils/crypto.ts:45-46 | the alphabet position of a base64 symbol maps back to that symbol |
| Base64.AlphabetValue | utils/crypto.ts:45-46 | reading the symbol of any 6-bit value gives the value back |
| Base64.SplitSextets | utils/crypto.ts:38-39 | four sextets for every full group of three bytes, plus 2 or 3 for a last group of 1 or 2 bytes |
| Base64.AlphabetOf | utils/crypto.ts:38-39 | each sextet becomes the symbol of the same alphabet position |
| Base64.Encode | utils/crypto.ts:38-39 | padded base64 output is 4·⌈n/3⌉ symbols long |
| Base64.EncodeSymbols | utils/crypto.ts:38-39 | every symbol of the encoding is in the base64 alphabet until the data ends and is '=' after that |
| Base64.JoinSextets | utils/crypto.ts:45-46 | octets come out at three for every four sextets, one or two for a final group of two or three |
| Base64.JoinSplitSextets | utils/crypto.ts:45-46 | joining the sextets that splitting produced gives the bytes back |
| Base64.RemoveWhitespace | utils/crypto.ts:45-46 | after removing whitespace no ASCII whitespace is left, and the result is no longer than the input |
| Base64.RemoveWhitespaceKeeps | utils/crypto.ts:45-46 | every unit that is not ASCII whitespace is kept, as often as it occurs |
| Base64.RemoveWhitespaceAppend | utils/crypto.ts:45-46 | removal works piece by piece, so the kept units stay in their order |
| Base64.RemoveWhitespaceNone | utils/crypto.ts:45-46 | text without whitespace is unchanged by whitespace removal |
| Base64.StripPadding | utils/crypto.ts:45-46 | when the length is a multiple of four, two trailing '=' are removed if there are two and one if there is one; otherwise the text is unchanged |
| Base64.SextetsOf | utils/crypto.ts:45-46 | every symbol is read as the 6-bit value whose alphabet symbol it is |
| Base64.Atob | utils/crypto.ts:45-46 | atob either yields a binary string or fails with InvalidCharacterError |
| Base64.Btoa | utils/crypto.ts:38-39 | btoa succeeds exactly on a binary string, and then yields the base64 of its bytes |
| Base64.BtoaFromCharCodes | utils/crypto.ts:38-39 | btoa of a string built with fromCharCode never throws and encodes exactly those bytes |
| Base64.StripEncodingPadding | utils/crypto.ts:45-46 | stripping the padding of an encoding leaves exactly its alphabet symbols |
| Base64.AtobEncode | utils/crypto.ts:38-46 | atob of what btoa produced for bytes yields the string of exactly those bytes |
| Base64.EncodeTwelveBytes | utils/crypto.ts:28-39 | the base64 IV is 16 alphabet symbols with no padding |
| Base64.RfcTestVectors | utils/crypto.ts:38-39 | the encoder gives the test vectors of section 10 of RFC 4648, from "" to "Zm9vYmFy" |
| Base64.ForgivingDecodeCases | utils/crypto.ts:45-46 | atob accepts missing padding, whitespace and leftover bits, and rejects "Zg=", "Z", "A===" and a unit above 0xFF |
| TokenCrypto.PadEnd | utils/crypto.ts:16 | padEnd keeps the string, adds the fill up to the target length, and leaves a longer string alone |
| TokenCrypto.SliceTo | utils/crypto.ts:16 | slice from 0 keeps the first min(end, length) code units |
| TokenCrypto.NormaliseKey | utils/crypto.ts:16 | the key text is exactly 32 units: a short key followed by '0's, or the first 32 units of a long one |
| TokenCrypto.ImportKey | utils/crypto.ts:17-23 | a raw AES-GCM key imports exactly when it is 16, 24 or 32 bytes, and otherwise fails with DataError |
| TokenCrypto.GetEncryptionKey | utils/crypto.ts:14-24 | key derivation fails only with DataError; the key it yields is the UTF-8 of the normalised key text and is exactly 32 bytes |
| TokenCrypto.GetEncryptionKeyAscii | utils/crypto.ts:14-24 | key derivation succeeds exactly when the normalised key is ASCII, and then the key bytes are its code units |
| TokenCrypto.MasterKeyImport | utils/crypto.ts:12-16 | the master key is cut to "gold-payments-elite-secure-vault", whose 32 bytes import as a 256-bit key |
| TokenCrypto.MasterKeyTextIsAscii | utils/crypto.ts:12 | the master key literal is ASCII |
| TokenCrypto.TextDecode | utils/crypto.ts:54 | whatever the bytes, TextDecoder yields a well-formed string, with no lone surrogate |
| TokenCrypto.TextDecodeEncode | utils/crypto.ts:54 | under a correct decoder, decoding the UTF-8 of a string gives its code points with a leading U+FEFF dropped |
| TokenCrypto.EncryptToken | utils/crypto.ts:26-41 | encryption always succeeds; the IV field is 16 base64 symbols; with a 16-byte tag the ciphertext field is 4·⌈(n+16)/3⌉ symbols for n bytes of UTF-8 plaintext |
| TokenCrypto.EncryptTokenFields | utils/crypto.ts:26-41 | the fields are the base64 of the plaintext's UTF-8 sealed under the master key and IV, and the base64 of the IV |
| TokenCrypto.DecryptToken | utils/crypto.ts:43-55 | decryption never fails with DataError; it fails with InvalidCharacterError exactly when one of its fields is not valid base64 |
| TokenCrypto.PayloadDecodes | utils/crypto.ts:38-46 | decrypt's base64 decoding of an encryptToken result gives back exactly the IV bytes and the sealed bytes |
| TokenCrypto.PlatformHypothesesSatisfiable | utils/crypto.ts:31-54 | some platform satisfies the AEAD, tag-length and decoder hypotheses together |
| TokenCrypto.DecryptEncrypt | utils/crypto.ts:26-55 | under a correct AEAD and decoder, decrypting an encryption gives the plaintext with lone surrogates replaced and a leading U+FEFF dropped, and the plaintext itself when it is well formed and does not start with U+FEFF |
| TokenCrypto.UsvStartsWithBom | utils/crypto.ts:54 | a JavaScript string starts with the BOM code point exactly when its first unit is 0xFEFF |
| Biometric.HandleScan | components/BiometricSecurity.tsx:34-35 | a scan sets scanning and leaves a scan timer pending, leaves success and the unlock side alone, and from the enabled button keeps the invariant |
| Biometric.Step | components/BiometricSecurity.tsx:34-41 | a scan click on the enabled button starts a scan, and on a disabled one changes nothing; a pending scan timer clears scanning, sets success and schedules exactly one unlock; a pending unlock timer calls onUnlock exactly once; a timer with nothing pending changes nothing; onUnlock is called only by the unlock timer after success; the invariant is kept |
| Biometric.ScanUnlocks | components/BiometricSecurity.tsx:34-41 | one click and the two timers leave the scan over and successful, with onUnlock called exactly once and nothing pending |
| Biometric.RunKeepsInv | components/BiometricSecurity.tsx:34-41 | on every trace the two flags are never both set, onUnlock is called at most once, and only after success |
| Biometric.StatusTextFollowsFlags | components/BiometricSecurity.tsx:71 | the status line names the scan while scanning, access granted after success, and the request before either |
| Biometric.BiometricSecurity.constructor | components/BiometricSecurity.tsx:9-10 | the screen starts neither scanning nor successful, with nothing pending |
| Biometric.BiometricSecurity.ClickScan | components/BiometricSecurity.tsx:75-77 | the button's click moves the fields as one scan-click step, and keeps the invariant |
| Biometric.BiometricSecurity.ScanTimerFires | components/BiometricSecurity.tsx:36-39 | the 2.5 s timer moves the fields as one scan-timer step, and keeps the invariant |
| Biometric.BiometricSecurity.UnlockTimerFires | components/BiometricSecurity.tsx:39 | the 1 s timer moves the fields as one unlock-timer step, and keeps the invariant |
| Plaid.StartProgress | components/PlaidConnection.tsx:13-14 | simulateProgress sets loading and leaves a progress timer pending, keeps the step, the finalize side and the tokens, and from an enabled Continuar or bank button keeps the invariant |
| Plaid.StartFinalize | components/PlaidConnection.tsx:21-22 | FINALIZAR's handler sets loading and leaves a finalize timer pending, keeps the step, the progress side and the tokens, and from the enabled button keeps the invariant |
| Plaid.Step | components/PlaidConnection.tsx:13-47 | an enabled Continuar or bank click sets loading and starts a progress timer, and an enabled FINALIZAR a finalize timer; a click on a disabled or unrendered button changes nothing; a pending progress timer clears loading and raises the step by exactly one; a pending finalize timer clears loading and passes a public-sandbox- token to onSuccess without changing the step; a timer with nothing pending changes nothing; cancel only records the onCancel call and keeps every pending timer; nothing else changes the step, starts a finalize timer or calls onSuccess |
| Plaid.StepKeepsInv | components/PlaidConnection.tsx:10-29 | one event keeps the wizard invariant |
| Plaid.RunKeepsInv | components/PlaidConnection.tsx:10-29 | on every trace step is at least 1, loading implies a pending timer, step 1 has at most one advance pending, onSuccess is reached only from step 3 on, and every token carries the public-sandbox- prefix |
| Plaid.BankDoubleClickOvershoots | components/PlaidConnection.tsx:76-82 | two quick bank clicks take the wizard to step 4, where no step view is rendered and nothing is loading |
| Plaid.ProgressFullAtStepThree | components/PlaidConnection.tsx:37 | the progress bar is at 100% exactly at step 3, and short of it before |
| Plaid.PlaidConnection.constructor | components/PlaidConnection.tsx:10-11 | the wizard starts at step 1, not loading, with nothing pending and no callback called |
| Plaid.PlaidConnection.SimulateProgress | components/PlaidConnection.tsx:13-19 | sets loading and starts one progress timer |
| Plaid.PlaidConnection.Finalize | components/PlaidConnection.tsx:21-29 | sets loading and starts one finalize timer |
| Plaid.PlaidConnection.ClickContinue | components/PlaidConnection.tsx:61-63 | the Continuar click moves the fields as one step, and keeps the invariant |
| Plaid.PlaidConnection.ClickBank | components/PlaidConnection.tsx:76-78 | a bank click moves the fields as one step, and keeps the invariant |
| Plaid.PlaidConnection.ClickFinalize | components/PlaidConnection.tsx:102-104 | the FINALIZAR click moves the fields as one step, and keeps the invariant |
| Plaid.PlaidConnection.ClickCancel | components/PlaidConnection.tsx:47 | the close click moves the fields as one step, and keeps the invariant |
| Plaid.PlaidConnection.ProgressTimerFires | components/PlaidConnection.tsx:15-18 | the progress timer moves the fields as one step, and keeps the invariant |
| Plaid.PlaidConnection.FinalizeTimerFires | components/PlaidConnection.tsx:23-28 | the finalize timer moves the fields as one step, and keeps the invariant |
| App.SyncTransaction | App.tsx:65-73 | the sync entry is a completed 450 000 MXN credit whose id starts with PLAID-SYNC- |
| App.Unlock | App.tsx:82 | the unlock callback puts the app on the dashboard and changes nothing else |
| App.OpenPlaidModal | App.tsx:160 | the sync button opens the modal only when the dashboard is shown, and changes nothing else |
| App.CancelPlaid | App.tsx:333 | cancelling closes the modal and changes nothing else |
| App.HandlePlaidSuccess | App.tsx:46-79 | the modal always closes; after a successful encryption and store exactly one sync entry is prepended, the balance rises by 450 000 with the rest of the wallet kept, and the toast is shown with a timer set; after a failure of either nothing else changes |
| App.ToastTimerFires | App.tsx:62 | the toast timer hides the toast and changes nothing else |
| App.LockGate | App.tsx:31-83 | on every trace the dashboard is shown exactly when the unlock callback has run, and while locked only the lock screen is rendered, with the modal closed |
| App.RepeatedSyncs | App.tsx:74-75 | n successful syncs raise the balance by 450 000·n, change no other wallet field, and put n sync entries, newest first, in front of the untouched earlier list |
| App.SyncsFromStart | App.tsx:32-38 | from the start, n successful syncs leave a balance of 1 000 000 + 450 000·n and 2 + n transactions |
| App.FailedSyncOnlyCloses | App.tsx:76-78 | a failed encryption or a throwing setItem only closes the modal |
| App.SyncIgnoresPublicToken | App.tsx:46-51 | the token handed over by the wizard does not affect the outcome |
| App.App.constructor | App.tsx:31-40 | the app starts locked with the opening wallet, the two seed transactions, the modal closed and no toast |
| App.App.OnUnlock | App.tsx:82 | moves the fields as the unlock event does |
| App.App.OpenPlaidModal | App.tsx:160 | moves the fields as the open-modal event does |
| App.App.CancelPlaid | App.tsx:333 | moves the fields as the cancel event does |
| App.App.HandlePlaidSuccess | App.tsx:46-79 | moves the fields as the sync handler does |
| App.App.ToastTimerFires | App.tsx:62 | moves the fields as the toast timer does |

## Behaviour of the code worth knowing

- **Cancel.** Cancel only closes the modal. A finalize timer that is
  already pending still calls `onSuccess`, and `handlePlaidSuccess` has no
  modal guard, so `App.HandlePlaidSuccess` accepts a success at any time.
- **Bank buttons.** The bank buttons have no loading guard, so
  `Plaid.BankDoubleClickOvershoots` reaches step 4, where no step view is
  rendered.
- **Key length constant.** `KEY_LENGTH` (256) is declared but never read.
  The key length comes only from the 32-character normalisation.
- **Unused app states.** `PLAID_LINK` and `AI_CONSULTANT` are never entered.
  They exist in `Types.AppState` only.

## Left out

- AES-GCM itself is the `seal`/`open` pair of a `Platform` parameter. Its correctness is the hypothesis `AeadCorrect`. Tamper detection is not modelled: a rejected ciphertext is only mapped to `OperationError`.
- TokenCrypto.EncryptToken: does not model Web Crypto rejecting a plaintext too large for AES-GCM, because the sealing function is abstract. Encryption is therefore total.
- UTF-8 decoding is the `utf8Decode` function of `Platform`, and its correctness is the hypothesis `DecoderCorrect`. Replacement of malformed byte sequences during decoding is therefore not modelled.
- Randomness is passed in as parameters:
  - the IV from `getRandomValues`;
  - the `Math.random` parts of the access token, the public token and the sync id.

  IV freshness across calls is not modelled.
- Clock readings (`new Date()` timestamps) are string parameters.
- `localStorage.setItem` and console logging are I/O. The model does not store the encrypted token anywhere. A `setItem` that throws is caught like a failed encryption, so the `encrypted` input of `App.HandlePlaidSuccess` stands for both having succeeded.
- The camera stream (`BiometricSecurity.tsx:13-32`) is device I/O and has no effect on the lock logic.
- Timer durations (1500, 2000, 2500, 1000 and 4000 ms) are not modelled. A timer firing is an event, so any order of firings is allowed.
- The `await` in `handlePlaidSuccess` is not modelled: the handler runs to completion as one event. Its later updates are functional updates of the latest state, so an interleaved event would not change what a sync adds.
- React rendering and batching, unmounting, and timers that outlive an unmounted component are not modelled. The wizard and the lock screen are not composed with the app: their callback calls are recorded in their own states.
- The spread into `String.fromCharCode` can throw a RangeError on very large buffers in engines with an argument limit. This is not modelled.
- Monetary amounts are integers. The source uses floating point, but every amount is a whole number.
- The progress bar width is a real number, not a floating-point one.
- `formatCurrency`, the markup and the static dashboard figures are presentation only.
- `services/geminiService.ts` is a network call, and `GoldAI` is a display component. Neither is part of this model.
- Base64.Atob: no lemma states the converse of the round trip. A non-canonical input (one with whitespace, or with nonzero leftover bits) is accepted, just as in the WHATWG decoder.
