# Clear-text password authentication (mysql_clear_password)

This project models the client side of the `mysql_clear_password` authentication
plugin of the MariaDB Node.js connector. The plugin answers the server's
authentication request with the password in clear text, with no hashing, followed
by a zero terminator byte. The password comes from the `password` connection
option. That option is absent, one string, or a list of strings for
multi-factor authentication. With a list, every `start` takes the entry at an
internal cursor (`counter`) and advances it by one.

Modules:

- `Wire`: bytes, packet sequence numbers modulo 256, the flushed `Packet` record, and the peer's reading of a
  null-terminated string (`ReadNullTerminated`). The reader is the inverse the
  plugin's response is proved against.
- `PacketOutputStream`: class `PacketOutput`. It is an abstract outbound buffer.
  It holds the payload of the packet being assembled and the log of packets
  flushed so far. A packet becomes visible to the peer only when it is flushed.
- `ClearPassword`: the `password` option as a datatype, JavaScript truthiness
  of that option (`IsSet`), the payload one `start` sends (`ResponsePayload`),
  the payloads of consecutive calls (`Transcript`), and class `ClearPasswordAuth`
  with its constructor and `Start`. `StartRepeatedly` calls `Start` on one
  instance several times and is proved to flush exactly the `Transcript`.

The `ServerInfo` argument of `Start` appears in no postcondition. The packet
sent is thus fully determined without the server's handshake data: the
password goes out untransformed. The rule that the plugin is for encrypted
connections only is a doc comment in the source. This class does not enforce
it, and neither does the model.

## Model

| member | source | states |
|---|---|---|
| ClearPassword.ClearPasswordAuth.constructor | lib/cmd/handshake/auth/clear-password-auth.js:8-12 | A new instance has `sequenceNo == packSeq`, `counter == 0`, no handler switched yet and no end-of-send signal. |
| ClearPassword.ClearPasswordAuth.Start | lib/cmd/handshake/auth/clear-password-auth.js:14-31 | Exactly one packet is flushed, with the commit flag and the payload `ResponsePayload(password, old counter)`. The flush advances `sequenceNo` to the next sequence number, and the packet carries that new number. The buffer is left empty. The cursor advances by one for a list and is unchanged otherwise. The handler becomes `successSend` and the end of sending is signalled. For a list the cursor must be in range, because the source indexes the list without a check. |
| ClearPassword.IsSet | lib/cmd/handshake/auth/clear-password-auth.js:18 | Decides whether a password is written at all. It is false exactly for an absent option and for the empty string. A list is always set, even an empty one. |
| ClearPassword.NextCounter | lib/cmd/handshake/auth/clear-password-auth.js:20 | The cursor after one call grows by at most one. It grows by exactly one if and only if the option is a list. |
| ClearPassword.ResponsePayload | lib/cmd/handshake/auth/clear-password-auth.js:17-27 | The payload always ends with the zero terminator. An absent or empty password gives exactly `[0]`. A single password gives its bytes followed by `0`. A list gives the entry at the cursor followed by `0`. |
| ClearPassword.ResponseRoundTrip | lib/cmd/handshake/auth/clear-password-auth.js:17-27 | A peer reading the payload as a null-terminated string gets back exactly the chosen password, with nothing left over, when that password holds no zero byte. An absent or empty password reads back as the empty string. |
| ClearPassword.Transcript | lib/cmd/handshake/auth/clear-password-auth.js:19-22 | `n` consecutive calls produce exactly `n` payloads. For a list the cursor must stay within the list for all `n` calls. |
| ClearPassword.TranscriptSnoc | lib/cmd/handshake/auth/clear-password-auth.js:19-27 | One more call appends one payload at the end: the one chosen at the cursor where the earlier calls left it. |
| ClearPassword.TranscriptConsumesList | lib/cmd/handshake/auth/clear-password-auth.js:19-27 | With a list, call `i` sends entry `counter + i` followed by `0`. Entries are consumed one per call, in list order. |
| ClearPassword.TranscriptRepeatsSingle | lib/cmd/handshake/auth/clear-password-auth.js:18-27 | With an absent or single password, every call sends the same payload, since nothing is consumed. |
| ClearPassword.NumberedAt | lib/cmd/handshake/auth/clear-password-auth.js:15-28 | When payloads are flushed one after another, packet `k` carries payload `k` and the starting sequence number plus `k + 1`, modulo 256. |
| ClearPassword.NumberedSnoc | lib/cmd/handshake/auth/clear-password-auth.js:15-28 | Flushing one more payload appends one packet, numbered one after the last. |
| ClearPassword.StartStep | lib/cmd/handshake/auth/clear-password-auth.js:14-31 | One more `start` extends the flushed packets by the next payload of the transcript, under the next sequence number. |
| ClearPassword.StartRepeatedly | lib/cmd/handshake/auth/clear-password-auth.js:14-31 | `n` consecutive `start` calls on one instance flush exactly the `n` payloads of `Transcript`, in order. They are numbered one after another from the instance's sequence number. The cursor ends `n` entries further on for a list, and unchanged otherwise. The sequence number ends `n` steps further on. |
| ClearPassword.TwoFactorStarts | lib/cmd/handshake/auth/clear-password-auth.js:14-31 | On one fresh instance with the list `[p1, p2]`, two `start` calls flush `p1 + [0]` under `packSeq + 1` and then `p2 + [0]` under `packSeq + 2`, both modulo 256. The cursor is left at 2. |
| Wire.NextSeq | lib/cmd/handshake/auth/clear-password-auth.js:28 | The sequence number of the next packet is the current one plus one, modulo 256. |
| Wire.SeqAfterWraps | lib/cmd/handshake/auth/clear-password-auth.js:28 | After `k` packets the sequence number has advanced by `k`, modulo 256. |
| Wire.ReadNullTerminated | lib/cmd/handshake/auth/clear-password-auth.js:24-27 | The peer's reading of the string these lines write, the inverse of lines 24-27. It finds a string exactly when the input holds a zero byte. The input is then the string, the zero and the rest, and the string holds no zero byte. |
| Wire.ReadWrittenString | lib/cmd/handshake/auth/clear-password-auth.js:24-27 | The peer's reading, the inverse of lines 24-27. Writing a string with no zero byte and then a zero terminator is undone by the reader. It gets back the string and, untouched, what followed the terminator. |
| Wire.ReadTruncatesAtZero | lib/cmd/handshake/auth/clear-password-auth.js:24-27 | The peer's reading, the inverse of lines 24-27. A password holding a zero byte reaches the peer cut at its first zero. |
| PacketOutputStream.PacketOutput.StartPacket | lib/cmd/handshake/auth/clear-password-auth.js:15 | Opens an empty packet under the command's sequence number. Nothing is sent. |
| PacketOutputStream.PacketOutput.WriteString | lib/cmd/handshake/auth/clear-password-auth.js:24 | Appends the string's bytes, with no terminator, to the open packet. |
| PacketOutputStream.PacketOutput.WriteInt8 | lib/cmd/handshake/auth/clear-password-auth.js:27 | Appends one byte to the open packet. |
| PacketOutputStream.PacketOutput.FlushBuffer | lib/cmd/handshake/auth/clear-password-auth.js:28 | Sends the assembled packet as one unit with the given commit flag, and empties the buffer. The packet carries the command's sequence number advanced by one. That number is returned as the command's new sequence number. |

## Left out

- The packet output stream behind `out` is not part of this model. It is modelled only by what `start` relies on. The model does not cover its header encoding, its splitting of large packets, or the socket write behind `flushBuffer`. The header number is taken to be the command's sequence number plus one, modulo 256.
- ClearPassword.ClearPasswordAuth.Start: in the source, the stream is handed the command object and advances its sequence number itself. Here `FlushBuffer` returns the advanced number and `Start` assigns it. That write through a shared reference is not modelled as aliasing.
- Sequence numbers are header bytes, 0 to 255. The constructor takes `packSeq` in that range.
- Character-set encoding inside `writeString` is a foreign call. Passwords are byte strings here, and the encoding is the identity.
- The `PluginAuth` base class (lib/cmd/handshake/auth/plugin-auth.js) is not part of this model. Its `successSend` handler, the `send_end` event and the resolve/reject/multi-auth callbacks are not modelled. The event is a boolean flag `sendEnd`, and the handler is a tag.
- The `compressPackSeq` and `pluginData` constructor arguments are not modelled, because the class never uses them.
- The `opts` object holds only `password` here. `start` never writes to it, so the option is unchanged after a call.
- Refusing this plugin over an unencrypted transport belongs to the handshake negotiator, which is not part of this model.
- A cursor past the end of a password list is excluded by the precondition of `Start`, since the source does not check it. Password values that are not strings are excluded by the types.
