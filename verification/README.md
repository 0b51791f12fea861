# Replicated chat server: accounts, sessions, replication and failover

This project models, in Dafny, the logic of a small fault-tolerant chat
service written in Python. One leader server holds the accounts and runs
one thread per client. Two backup servers receive every account's state
after each welcome flow and after each menu turn, except a send to an
unknown recipient and a confirmed deletion. When a leader dies, the
backups and the clients move on to the next server in a fixed order.

What is modelled:

- **The account store** (`users` in server.py). `UserStore` maps each
  username to its password, the socket it is bound to and its mailbox of
  undelivered messages. It keeps the dict's insertion order, because that
  order is the user listing order and the order of replication records.
- **A client session.** `SessionEngine` covers the greeting, the welcome
  choice, account creation, login with at most three attempts, the user
  listing and the menu loop (send a message, list users, delete the
  account). Each flow is a pure function of:
  - the shared state: the store and the set of open client sockets;
  - the scripted sequence of texts that successive `recv` calls return.

  A flow returns the new state, the trace of what it sent and how it ended.
  Every `update` call is one `Replicate` event in the trace, carrying the
  records sent to each backup.
- **The text formats.** `WireCodec` covers:
  - the per-account replication record `user.password.count.mail1.mail2.`;
  - the comma-terminated address list a leader sends its backups;
  - the client greeting: that list, then `@`.
- **The backup's loop.** In `ServerFailover` the backup takes the address
  list, applies the records, and on losing the leader increments the
  leader index and decrements the replication count. It then reconnects
  to the new leader or becomes the leader itself.
- **The client's failover view.** In `ClientFailover` the client learns
  the addresses from the greeting. When its server goes away it scans
  forward for the next server it can reach.

`Text` holds the Python string operations the code relies on: `strip`,
`split`, joining with separators, and `int()` on decimal text. `Base` holds
`Option`, `Result`, the start-up replication count and the endpoint type.

Conventions:

- A `recv` that returns nothing means the peer closed. A script that runs
  out is read the same way.
- Reachability of a server endpoint is a parameter: the set `up` of
  (address, port) pairs that a `connect` reaches.
- The port base is a parameter, not the constant from the source.
- Prompts are abstract message constructors. Texts that carry data keep
  their content: mail, the greeting, and the user listing's names and
  numbers.
- Python exceptions are error outcomes:
  - `int()` on a non-numeric welcome choice ends the thread
    (`Crashed(NotAnInteger)`).
  - An invalid numeric welcome choice runs a nested welcome. Then
    `update` runs, and the function fails on its unbound `username`
    (`Crashed(UsernameUnbound)`).
  - In the menu loop, every exception is caught by the bare `except` and
    the session ends (`Aborted`).
  - On a backup, an undecodable record, an address index past the list,
    or a refused connection stops the process (`Halted`).

## Model

| member | source | states |
|---|---|---|
| UserStore.CreateAccount | server.py:45-57 | Succeeds exactly when the username is unused. The new account has the given password, an empty mailbox and the creating socket, and comes last in the listing order. No other account changes. A taken name is refused with nothing changed. |
| UserStore.Authenticate | server.py:80-105 | Fails with UnknownUser exactly when the name is not registered, and with WrongPassword exactly when the password differs. On success the account is bound to the session's socket, its password is kept, and the mailbox it had is returned and emptied. No other account changes. |
| UserStore.Enqueue | server.py:207-209 | Appends the message to the end of the recipient's mailbox. Password, socket, listing position and every other account are unchanged. |
| UserStore.Delete | server.py:226-227 | Removes exactly the named account from the map and from the listing order. Every other account stays, in the same relative order. |
| UserStore.Overwrite | server.py:353-359 | The account ends up with exactly the given password and mailbox. An existing account keeps its socket and position. A new one is appended with no socket key. No other account changes. |
| Text.Split | server.py:351 | `str.split` on one character: at least one part, and no part contains the separator. There is more than one part exactly when the separator occurs. |
| Text.JoinSplit | server.py:351 | Joining the parts of a split with the separator gives back the original text. |
| Text.SplitTerminated | server.py:311-316 | Splitting a separator-terminated list of separator-free items gives the items plus one empty last field. |
| Text.Strip | server.py:42 | `strip()`: the result neither starts nor ends with whitespace, and a text that neither starts nor ends with whitespace is returned unchanged. That only whitespace is removed is stated by StripRemovesOnlySpace, and StripIdempotent shows that stripping twice is stripping once. |
| Text.StripRemovesOnlySpace | server.py:42 | The stripped text is the slice of the original starting after its leading whitespace, and every character cut off before or after it is whitespace. |
| Text.StripIdempotent | server.py:185 | Stripping an already stripped text changes nothing. |
| Text.ParseInt | server.py:135 | `int()` on text. Its own contract states only that a number comes from a non-empty text. ParseIntDigits, ParseShowNat, ParseIntStrips and ParseIntRejectsSeparator give it meaning. |
| Text.ParseIntDigits | server.py:355 | A non-empty run of decimal digits reads as the number it denotes, leading zeros allowed. |
| Text.ParseIntStrips | server.py:135 | Any amount of the whitespace `int()` skips (space, tab, newline, carriage return, vertical tab, form feed) before and after a text leaves `int()`'s answer unchanged, such as the newline a client line ends with. |
| Text.ParseIntRejectsSeparator | server.py:135 | `int()` does not skip U+001C, which `strip()` removes: `"1"` followed by U+001C strips to `"1"` but is not a number. |
| Text.ParseShowNat | server.py:355 | Reading back the decimal text of a natural number gives that number, which is the `int()` of a length that `str.format` wrote. |
| WireCodec.EncodeRecord | server.py:245-250 | When no field holds a dot, splitting the record on dots gives exactly its fields (username, password, mailbox length, each message) and one empty field after the last dot. |
| WireCodec.DecodeRecord | server.py:351-359 | Fewer than three dot-separated fields is a missing-field error. A successful decode names the first field's user, and no field of the result contains a dot. |
| WireCodec.RecordRoundTrip | server.py:245-249 | When no field contains a dot, a backup decodes exactly the record the leader encoded: the username, the password, and the same mailbox in the same order. |
| WireCodec.UpdateMessages | server.py:241-250 | One record per listed account, in listing order: the i-th message is the record of the i-th account's current password and mailbox. |
| WireCodec.UpdateRoundTrip | server.py:241-250 | An `update` sends one record per account, in listing order. Each decodes to that account's current password and mailbox. |
| WireCodec.EncodeAddrList | server.py:311-316 | When no address holds a comma, splitting the list on commas gives exactly the addresses and one empty field after the last comma. |
| WireCodec.DecodeAddrList | server.py:344 | No decoded address contains a comma, and a text without a comma gives the empty list. Which addresses come out is stated by DecodeAddrListSplitsOff. |
| WireCodec.DecodeAddrListSplitsOff | server.py:344 | For any text, the text is the comma-terminated list of the decoded addresses followed by a comma-free rest. Since every address is comma-free, that fixes the result. |
| WireCodec.AddrListRoundTrip | server.py:311-316 | Decoding the leader's comma-terminated list gives back exactly its addresses, when none contains a comma. |
| WireCodec.ParseGreeting | client.py:88-91 | Fails exactly when the text has no `@`, and otherwise gives a banner without `@`. Which addresses and banner come out is stated by ParseGreetingSplitsOff. |
| WireCodec.ParseGreetingSplitsOff | client.py:88-91 | For any text with an `@`, the addresses are those decoded from the text before the first `@`. The banner is the `@`-free text between that `@` and the next `@` or the end. |
| WireCodec.GreetingRoundTrip | server.py:150-155 | A greeting built from comma-free, `@`-free addresses and an `@`-free banner parses back into those addresses and that banner. |
| WireCodec.ServerGreeting | server.py:150-155 | The greeting the leader builds always parses: the client never fails on it for want of an `@`. |
| WireCodec.ServerGreetingParses | server.py:150-155 | What `client_thread` sends parses as its backup list with an empty banner. |
| SessionEngine.RemoveConnection | server.py:28-31 | The socket, which must be open, leaves the open set. Nothing else changes. |
| SessionEngine.Welcome | server.py:129-145 | The welcome menu is sent first. The registry stays well formed and no other session's socket is touched. A disconnect changes nothing but closes the socket. A username outcome leaves the session bound to that account with an empty mailbox. A non-numeric choice crashes with nothing changed, and any number other than 1 or 2 crashes. |
| SessionEngine.Create | server.py:35-67 | The same guarantees as the welcome flow. Account creation never crashes, and a user it authenticates was not registered before. |
| SessionEngine.Login | server.py:70-126 | The registry stays well formed and no other session's socket is touched. A disconnect changes nothing but closes the socket. A successful login leaves the session bound to the account with an empty mailbox. |
| SessionEngine.Retry | server.py:108-126 | The same guarantees as a login attempt, and whatever follows a failed attempt starts with what was already sent. |
| SessionEngine.Tag | server.py:199 | The delivered text is `<`, the sender's name, `> `, then the body exactly as sent. |
| SessionEngine.Deliver | server.py:199-211 | Errs exactly when the recipient's account has no socket key. If the recipient's socket is open, the message goes straight to it and nothing changes. Otherwise the tagged message is appended to that recipient's mailbox only. |
| SessionEngine.Menu | server.py:166-239 | The menu loop always ends with the session's socket closed, every other socket open as before, the thread alive and the registry well formed. |
| SessionEngine.SendTurn | server.py:177-211 | The same ending as the menu loop, for a send-message turn and the rest of the session. |
| SessionEngine.DeleteTurn | server.py:218-230 | The same ending as the menu loop, for a delete turn and the rest of the session. |
| SessionEngine.Continue | server.py:232-234 | The same ending as the menu loop, and the turn's output comes first. |
| SessionEngine.ClientThread | server.py:148-165 | The first message is the greeting listing every server address but the leader's. The welcome menu comes next. Only this session's socket is touched. Unless an exception escaped the thread, the socket is closed at the end. |
| SessionFrames.WelcomeFrame | server.py:129-145 | The welcome flow only adds accounts: existing ones stay listed in place and keep their passwords. It reads its input in order. When it yields a username, that account is the only one that changed, and it is either new and listed last or was already listed. |
| SessionFrames.CreateFrame | server.py:35-67 | The same frame for account creation, including its re-prompt on a taken name. |
| SessionFrames.LoginFrame | server.py:70-107 | The same frame for one login attempt and whatever follows it. |
| SessionFrames.RetryFrame | server.py:108-126 | The same frame after a failed attempt, whether the next attempt or a fresh welcome flow follows. |
| SessionFrames.MenuKeeps | server.py:166-239 | The menu loop never creates or rebinds an account and never changes a password. Mailboxes only grow. The only account it can remove is the user's own, and only when the session ends by deletion. |
| SessionFrames.SendTurnKeeps | server.py:177-211 | The same frame for a send-message turn and the rest of the session. |
| SessionFrames.DeliveredKeeps | server.py:192-211 | The same frame when the message was delivered or queued and the loop goes on. |
| SessionFrames.DeliverKeeps | server.py:199-211 | A delivery removes, creates and rebinds nothing, keeps every password, and can only lengthen a mailbox. |
| SessionFrames.DeleteTurnKeeps | server.py:218-230 | The same frame for a delete turn: `confirm` removes the user's own account, anything else goes on with the loop. |
| SessionFrames.ContinueKeeps | server.py:232-234 | The same frame for the rest of the session after a turn. |
| SessionProperties.CreateRegistersFreshName | server.py:45-61 | A fresh username and a password register the account, bound to the session, with an empty mailbox, last in the listing. |
| SessionProperties.CreateRepromptsOnTakenName | server.py:64-67 | A taken username is reported and the create flow restarts on the next input. The existing account is never replaced. |
| SessionProperties.DeliveriesCarryMailbox | server.py:103-104 | The drain sends exactly the queued messages, in mailbox order, all on the session's socket. |
| SessionProperties.LoginDeliversMailboxInOrder | server.py:89-107 | A right username and password, at any attempt, bind the account to the socket. Every queued message is sent on it in queue order, and the mailbox is empty afterwards. |
| SessionProperties.WelcomeChoosesCreate | server.py:137-138 | Welcome choice 1 continues exactly as account creation on the rest of the input, after the welcome menu, with `update` after it unless it crashed. |
| SessionProperties.WelcomeChoosesLogin | server.py:139-140 | Welcome choice 2 continues exactly as login from attempt 1 on the rest of the input, after the welcome menu, with `update` after it unless it crashed. |
| SessionProperties.WelcomeLoginGivesUp | server.py:139-145 | Choosing 2 and then failing three attempts leaves the same state, unread input and outcome as a fresh welcome flow on the remaining input. |
| SessionProperties.FailedAttemptAdvances | server.py:108-126 | A wrong name or password below the limit reports the attempts left and continues as the login with the count one higher. At the limit it continues as a fresh welcome flow. |
| SessionProperties.LoginGivesUpAfterLimit | server.py:111-126 | Once every attempt from `k` to the limit has failed, the session continues exactly as a fresh welcome flow on the remaining input. |
| SessionProperties.MenuUnknownRecipient | server.py:187-190 | Sending to a username that does not exist reports it. Every account is left as it was, and the loop continues without replicating. |
| SessionProperties.MenuSendsTagged | server.py:192-211 | For a recipient with a socket, the rest of the session runs on the state `Deliver` produced. A direct delivery puts the tagged message on the recipient's socket. |
| SessionProperties.SendTurnTagged | server.py:192-211 | A send turn to a recipient with a socket ends exactly as the next menu turn on the delivered state does. A direct delivery puts the tagged message on the recipient's socket before that. |
| SessionProperties.MenuDeleteConfirmed | server.py:218-230 | `confirm` removes the user's own account, and only that one, and ends the session with its socket closed. |
| SessionProperties.MenuDeleteDeclined | server.py:218-234 | Any other answer changes nothing. The loop replicates and goes on. |
| SessionEngine.UserList | server.py:214-215 | One line per listed account, each on the session's socket and numbered by its listing position. Which names appear is stated by ListingNamesEachAccountOnce. |
| SessionProperties.ListingNamesEachAccountOnce | server.py:162-164 | The user listing names every account exactly once, numbered by listing position. |
| ServerFailover.Start | server.py:270-296 | A backup begins with leader 0, the start-up replication count, only the leader's address, an empty store and an address list expected next. This is a following state. |
| ServerFailover.Step | server.py:328-359 | A backup is promoted exactly when its leader's socket closes and it is the next machine, with the leader index raised by one and the replication count lowered by one. On a close, a backup that goes on following has reconnected to the new leader's endpoint and expects its address list. A record message keeps the leader index. On a message, the loop halts only on an undecodable record, or on an address list when the leader index is past the table; under Inv only an undecodable record halts on a message. |
| ServerFailover.Steps | server.py:326-359 | The loop over received texts until the backup stops following. A backup still following keeps its machine number and a well-formed store, and its leader index has not decreased. |
| ServerFailover.StepPreservesInv | server.py:331-338 | Every turn keeps the following invariant: leader index plus replication count is constant, and the leader index never reaches the backup's own number. A promotion happens exactly at the backup's own number. |
| ServerFailover.StepsPreserveInv | server.py:298-359 | The invariant holds over any sequence of received messages, and the leader index only grows. |
| ServerFailover.LossesEndFollowing | server.py:328-338 | A following backup that loses its leader at least as many times as there are machines from the leader up to itself is no longer following: it has been promoted or has halted. |
| ServerFailover.StartedBackupPromotedOrHalted | server.py:328-338 | A backup started as machine 1 or 2 that loses its leader as many times as its machine number is promoted or halted by then. |
| ServerFailover.StepAsWritten | server.py:328-359 | The loop turn as written: on the address list, SERVER_ADDRS becomes the leader's address followed by the list. Every other turn is the intended one. |
| ServerFailover.StepAsWrittenInStep | server.py:331-346 | For machine 1 or 2, a turn as written does what the intended turn does, apart from SERVER_ADDRS. The one exception: machine 2, following machine 1 with no backup address after it, halts on the log line where the intended loop promotes it. |
| ServerFailover.StepsAsWrittenInStep | server.py:328-359 | The same over any run: the as-written replica follows, halts and is promoted as the intended one does, apart from SERVER_ADDRS, or it halts on the log line where the intended one is promoted. |
| ServerFailover.StartAsWrittenInStep | server.py:270-359 | The same comparison for backups 1 and 2 started from the same state. |
| ServerFailover.AsWrittenHaltsOnShortList | server.py:331-346 | The exception occurs: machine 2 following machine 1, given a list with no address, is promoted by the intended loop, while the loop as written halts with an IndexError. |
| ServerFailover.RecordStepOverwrites | server.py:351-359 | A record message overwrites exactly its account with the record's password and mailbox, keeping an existing socket. Nothing else changes. |
| ServerFailover.ReplayOverwrites | server.py:241-250 | After the records of any sequence of leader accounts, each named account has the leader's password and mailbox. Accounts not named are unchanged, and only the store changed. |
| ServerFailover.UpdateConverges | server.py:241-250 | After one `update`, every leader account is on the backup with the leader's password and mailbox. Accounts the leader no longer has stay unchanged. |
| ServerFailover.Rebase | server.py:343-346 | Corrected re-initialisation: the addresses up to the leader's keep their indexes. |
| ServerFailover.RebaseRestoresCluster | server.py:343-346 | With the corrected re-initialisation, the new leader's list of the machines after it restores the whole address table by machine number. |
| ServerFailover.RebaseAsWritten | server.py:343-346 | As written, the leader's address moves to index 0, followed by the decoded list. |
| ServerFailover.RebaseAsWrittenShifts | server.py:343-346 | As written, the table comes out shifted by the leader index. |
| ServerFailover.RebaseAsWrittenMisplacesLeader | server.py:331-346 | On three machines, after machine 1 takes over, index 1 of machine 2's table names machine 2, not the leader. |
| ClientFailover.Start | client.py:42-44 | The client starts at index 0 with only the command-line address and expects a greeting. |
| ClientFailover.OnServerText | client.py:85-98 | A greeting without `@` crashes the client. Otherwise, after any message, `init` is false and the leader index is unchanged. The old addresses stay as a prefix and the appended ones are comma-free. A non-greeting is shown verbatim with the view unchanged. |
| ClientFailover.GreetingExtendsView | client.py:86-94 | A server's greeting appends exactly its backup addresses, in order, and shows an empty banner. |
| ClientFailover.FirstGreetingKeepsLeader | client.py:86-94 | After the first greeting, the command-line address is at index 0 and the backups follow. |
| ClientFailover.AttemptAt | client.py:68-72 | The try for index `i` is the address at `i` on port base plus `i`, or an out-of-range failure past the list. |
| ClientFailover.FirstReachable | client.py:63-77 | Gives the least reachable index in the scan's range, or nothing when no index in the range is reachable. |
| ClientFailover.Reconnect | client.py:63-84 | The scan tries the indexes after the old one, one at a time, each at its own port, and stops at the first reachable one. It succeeds exactly when some index up to one past the replication count is reachable. On success `init` is set again. On failure every index up to one past the replication count was tried and the client exits. |

## Left out

- Sockets, `select`, `bind`/`listen`/`accept`/`connect` and the stdin forwarding loop of client.py are I/O. Transport is modelled as scripted input, an output trace and a set of reachable endpoints.
- Threads and the unsynchronised sharing of `users` between them are left out. Each session is one sequential run against the store.
- `sys.argv` parsing, `print` logging, `time.sleep`, and the constants `SERVER_IP`, `PORT`, `BUFFER_SIZE` and `MAX_CLIENTS` are configuration and I/O. The port base is a parameter.
- The 2048-byte framing is left out. Every `recv` is taken to return exactly one message the peer sent, so records that TCP would coalesce are not modelled.
- UTF-8 encoding and decoding are left out. Texts are sequences of characters.
- The leader's bootstrap that accepts the backups (server.py:298-317) and its infinite client accept loop are network lifecycle. A promoted backup is modelled up to the promotion.
- The order in which the leader accepts its backups is left out. The model assumes the list it sends is in machine order, as the reconnect rule needs.
- Text.ParseInt: `int()` also accepts underscores between digits and non-ASCII digits, and it skips non-ASCII whitespace. Only ASCII digits and the six ASCII whitespace characters are modelled.
- Text.Strip: `strip()` also removes non-ASCII whitespace. Only ASCII whitespace and U+001C to U+001F are modelled.
- ServerFailover.Step: runs the corrected re-initialisation of SERVER_ADDRS (`Rebase`), not server.py:343-346 as written. `StepAsWritten` models the code as written, and `StepsAsWrittenInStep` proves how far the two agree.
- Every send is taken to succeed. A send can fail in the source when the peer is gone: the direct delivery at server.py:203, or `update`'s records to a dead backup at server.py:250. In the menu loop the bare `except` at server.py:235-239 would then end the session. Inside `welcome` the exception would escape the thread.
- Recursion depth is unbounded. The re-prompts at server.py:67, 113, 116, 123, 126 and 143 call themselves, and Python raises an uncaught RecursionError after about a thousand of them. The model recurses on the remaining input without that limit.
- SessionEngine.ClientThread: when the welcome flow ends because the peer closed, the source goes on to send the chatroom banner on the closed socket, and that exception escapes the thread. The model ends the session there as `PeerLeft`.
- The texts of the prompts are abstracted into message constructors.
- In the source the greeting carries no banner text after the `@`. The client prints an empty banner, and the model keeps that.
- Deleting an account is never replicated. The delete branch returns before `update`, and records only overwrite. The model keeps this: `UpdateConverges` shows that a deleted account stays on the backups.

## Findings

| source | as written | input that shows it | evidently intended | confidence | as-written member | corrected member |
|---|---|---|---|---|---|---|
| server.py:343-346 | On each new leader's address list, a backup sets SERVER_ADDRS to the leader's address followed by the list. LEADER still counts machines from 0, so afterwards SERVER_ADDRS[LEADER] no longer names the leader (used at server.py:332 and server.py:256-257). | Addresses A, B, C, with machine 1 taking over and sending "C,". Machine 2's table becomes [B, C] with LEADER = 1, so index 1 names C, machine 2 itself. | Keep the addresses up to and including the leader's, then append the list, so that index i keeps naming machine i. | not executed; with REPLICATION = 2 the loop as written differs only in SERVER_ADDRS, or halts on the log line at server.py:332 where the intended loop promotes (proved for backups 1 and 2); with three or more backups the next reconnect goes to the wrong address | ServerFailover.RebaseAsWrittenMisplacesLeader, ServerFailover.StepAsWritten, ServerFailover.AsWrittenHaltsOnShortList | ServerFailover.RebaseRestoresCluster |

`ServerFailover.Step` uses the corrected `Rebase`. `RebaseAsWritten`, `StepAsWritten` and the lemmas about them record the behaviour of the code as written.
