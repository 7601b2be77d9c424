# RMDS node: LoRa task and OLED frame buffers in Dafny

This project models the logic of the RMDS methane-monitoring node firmware
(ESP-IDF, C). Two parts are modelled:

- **The LoRa node task** (`rmds_lora_task`). It is a four-state machine:
  - INIT configures the radio: 915 MHz, 125 kHz bandwidth, SF 7, coding rate 4/5, preamble 8, sync word 0x34, CRC on.
  - RX listens, and echoes every received packet after NUL-terminating it in a 256-byte buffer.
  - TX formats `NODE=1,METHANE=123` with `snprintf`, clamps the length and sends it.
  - ERROR backs off for one second and retries INIT.

  The switch to TX uses the unsigned 32-bit tick difference `now - last_tx_tick`.
- **The two 128 x 64 monochrome frame buffers.** Each is 1024 bytes in SSD1306 page layout: 8 pages of 8 pixel rows, one byte per column per page.
  - The logo display's `frame_buffer` is drawn in logical coordinates rotated by 180 degrees.
  - The rocket animation's `oled_buffer` is unrotated. It adds clipped lines and 5x7 digit glyphs, plus the pure arithmetic of the animation loop.

Files:

- `pixels.dfy` (module `PageLayout`): the shared page layout. It covers the byte index and bit of a pixel, setting or clearing one bit (`PlotByte`), and what a buffer shows (`Lit`). `Plot` is the buffer after one pixel write. It carries the proofs that a write changes exactly one pixel and is idempotent.
- `rocket.dfy` (module `RocketOled`): `OledCanvas`, a class over `oled_buffer`. Its methods are pixel, clear, lines, filled rectangle, digit glyph and HUD counter. The module also covers the SSD1306 page/column command bytes and the wobble and HUD digit expressions of the animation loop.
- `rmds_oled.dfy` (module `RmdsOled`): `FrameCanvas`, a class over `frame_buffer`. Its methods are rotated pixel, clear, filled rectangle, border and the staged "RMDS" logo frame.
- `decimal.dfy` (module `DecimalText`): the `%d` conversion used in the payload. It has a parse-back round trip and the bound of 11 characters for a 32-bit `int`.
- `lora.dfy` (module `LoraNode`): the LoRa task.
  - The pure transition function is `Next`. The events one pass produces are given by `StepEvents`.
  - The class `LoraTask` holds `state`, `lastTxTick`, `rxLoopCounter`, the 256-byte `rxBuf` and a log of radio and console events. Its `Step` method is one pass of the loop and is proved against `Next` and `StepEvents`.
  - Lemmas cover multi-pass runs, including that packets are sent at least one period apart in real time across tick-counter wrap-around.

How the outside world appears in the model:

- Radio calls become `Event`s appended to `radioLog`: `lora_init`, the `lora_set_*` calls, `lora_enable_crc`, `lora_receive`, `lora_send_packet`.
- So do the delays the task takes and four of its console outputs: the two `printf` echoes of received and sent packets (`RxEcho`, `TxEcho`), the every-hundredth-pass heartbeat (`RxAlive`) and the warning for a non-positive received length (`RxEmpty`). No other log line is modelled.
- What a pass observes is an `Inputs` value:
  - whether `lora_init` succeeds;
  - the packets `lora_received` / `lora_receive_packet` report, as bytes written plus the returned length;
  - the tick count.
- `pdMS_TO_TICKS(1000)` depends on the configured tick rate, so the transmit period is the abstract constant `periodTicks`.

`main/rmds_lora.h:12-21` declares separate TX-only and RX-only starters and a `rmds_lora_set_payload` entry point. `main/rmds_lora.c` defines none of them: it has only the merged RX/TX task with a fixed payload and its starter `rmds_lora_start`. The model follows `main/rmds_lora.c`.

In the TX state, `len` is clamped to `sizeof(tx_buf)` (64), not to the 63 characters that fit before the terminator. A formatted text of 64 bytes or more would therefore be sent with its NUL as the last byte (`LoraNode.SentBytes`). With the fixed format and any two 32-bit arguments, the text is at most 36 bytes (`LoraNode.TxTextSentWhole`), so this case cannot occur.

## Model

| member | source | states |
|---|---|---|
| `PageLayout.ByteIndex` | main/rocket.c:145-146 | The byte of an on-screen pixel is below 1024; its column is x and its page is y / 8. |
| `PageLayout.PlotByteBit` | main/rocket.c:145-153 | Turning a pixel on (OR with `1 << k`) sets exactly bit k; turning it off (AND with the complement) clears exactly bit k; every other bit of the byte keeps its value. |
| `PageLayout.Plot` | main/rocket.c:142-153 | An off-screen write leaves every byte unchanged; an on-screen write changes no byte other than the pixel's own. |
| `PageLayout.PixelAddressInjective` | main/rocket.c:145-147 | Two on-screen pixels with the same byte and bit are the same pixel. |
| `PageLayout.PlotChangesOnePixel` | main/rocket.c:142-153 | After a write, the written pixel shows `on` (if on screen) and every other pixel shows what it showed before. |
| `PageLayout.PixelsDetermineBuffer` | main/main.c:52 | Two buffers that show the same pixels are equal byte for byte. |
| `PageLayout.PlotIdempotent` | main/main.c:73-79 | Writing the same value to the same pixel twice gives the same buffer as writing it once. |
| `PageLayout.ZeroBufferIsDark` | main/rocket.c:137-140 | A buffer of zero bytes shows no pixel. |
| `RocketOled.FontFitsSevenRows` | main/rocket.c:202-214 | The font has ten glyphs of five columns, and no column uses bit 7, so the seven rows drawn cover the whole glyph. |
| `RocketOled.PageColumnCommands` | main/rocket.c:125-133 | The commands are three bytes in 0xB0..0xB7, 0x00..0x0F and 0x10..0x17; they encode the page masked to 0..7 and the column masked to 0..127, and both can be read back. |
| `RocketOled.Wobble` | main/rocket.c:347 | The wobble is always in 0..7. |
| `RocketOled.WobbleOfPhase` | main/rocket.c:347 | The wobble depends only on frame % 16: it rises 0..7 over the first eight phases and falls 7..0 over the last eight. |
| `RocketOled.WobbleIsSmooth` | main/rocket.c:347 | Consecutive frames differ by at most one pixel, and the wobble repeats every 16 frames. |
| `RocketOled.HudDigit` | main/rocket.c:354 | The HUD value `(frame / 8) % 10` is in 0..9, so `'0' + t` is a digit character. |
| `RocketOled.RocketY` | main/rocket.c:343-348 | The rocket's vertical centre stays between rows 43 and 50. |
| `RocketOled.OledCanvas.constructor` | main/rocket.c:37 | The canvas owns a fresh 1024-byte buffer that starts all zero, as a static array does, so no pixel is lit. |
| `RocketOled.OledCanvas.ClearBuffer` | main/rocket.c:137-140 | All 1024 bytes become zero and no pixel is lit. |
| `RocketOled.OledCanvas.DrawPixel` | main/rocket.c:142-154 | The buffer becomes `Plot` of the old buffer: off-screen coordinates change nothing; on screen exactly pixel (x, y) takes `on`. |
| `RocketOled.OledCanvas.DrawHLine` | main/rocket.c:156-166 | With y on screen, exactly the pixels of row y between min(x0, x1) and max(x0, x1) take `on`, clipped to the screen; with y off screen nothing changes. |
| `RocketOled.OledCanvas.DrawVLine` | main/rocket.c:168-178 | With x on screen, exactly the pixels of column x between min(y0, y1) and max(y0, y1) take `on`, clipped to the screen; with x off screen nothing changes. |
| `RocketOled.OledCanvas.DrawFilledRect` | main/rocket.c:191-198 | Exactly the on-screen pixels of [x0, x0 + w) x [y0, y0 + h) take `on`; every other pixel is unchanged, so non-positive w or h changes nothing. |
| `RocketOled.OledCanvas.DrawChar5x7` | main/rocket.c:216-228 | For a digit, exactly the pixels (x + col, y + row) whose glyph bit `row` of column `col` is set take `on`; for any other character nothing changes. |
| `RocketOled.OledCanvas.DrawHudCounter` | main/rocket.c:295-298 | Exactly the inked pixels of the digit's glyph at (4, 4) are turned on. |
| `RmdsOled.RotatedAddress` | main/main.c:68-72 | The rotated pixel is on screen, its byte index `((63 - y) / 8) * 128 + (127 - x)` is below 1024, and rotating twice gives back (x, y). |
| `RmdsOled.RotatedPlot` | main/main.c:62-80 | Setting an off-screen logical pixel leaves the buffer unchanged; an on-screen one writes the physical pixel (127 - x, 63 - y). |
| `RmdsOled.RotatedPlotChangesOnePixel` | main/main.c:62-80 | Seen through the rotation, exactly the written logical pixel changes. |
| `RmdsOled.LettersShown` | main/main.c:275-307 | Letter k of "RMDS" (k = 1..4) is requested exactly when n >= k. Letters are placed left to right at x = 14 + 25 (k - 1), y = 10, size 22 x 40, each inside the border. |
| `RmdsOled.FrameCanvas.constructor` | main/main.c:52 | The canvas owns a fresh 1024-byte buffer that starts all zero, as a static array does, so no logical pixel is shown. |
| `RmdsOled.FrameCanvas.Clear` | main/main.c:57-60 | All 1024 bytes become zero and no logical pixel is shown. |
| `RmdsOled.FrameCanvas.SetPixel` | main/main.c:62-80 | The buffer becomes `RotatedPlot` of the old one: out-of-range coordinates change nothing; otherwise exactly logical pixel (x, y) takes `on`. |
| `RmdsOled.FrameCanvas.FillRect` | main/main.c:82-89 | Exactly the on-screen logical pixels of [x0, x0 + w) x [y0, y0 + h) take `on`; no other pixel changes. |
| `RmdsOled.FrameCanvas.DrawBorder` | main/main.c:92-102 | Every pixel of row 0, row 63, column 0 and column 127 is on afterwards; no other pixel changes. |
| `RmdsOled.FrameCanvas.DrawRmdsPartial` | main/main.c:275-307 | The letter requests are `LettersShown(n)`, and the buffer is cleared and bordered: it shows exactly the border pixels. |
| `DecimalText.NatText` | main/rmds_lora.c:137-139 | `%d` of a non-negative value is a non-empty string of decimal digits without a leading zero. |
| `DecimalText.IntText` | main/rmds_lora.c:137-139 | `%d` of any value is non-empty, all digits except a leading '-', and it starts with '-' exactly for negative values. |
| `DecimalText.NatTextRoundTrip` | main/rmds_lora.c:137-139 | Reading the rendered digits back gives the original value. |
| `DecimalText.NatTextLength` | main/rmds_lora.c:137-139 | A value below 10^k renders in at most k digits. |
| `DecimalText.Int32TextLength` | main/rmds_lora.c:137-139 | Any 32-bit `int` renders in at most 11 characters. |
| `LoraNode.Next` | main/rmds_lora.c:50-170 | ERROR is entered exactly on a failed init. INIT exactly after ERROR. TX exactly from RX when `(now - last_tx_tick) mod 2^32 >= period_ticks`. RX otherwise. `last_tx_tick` becomes `now` exactly on a successful init or a TX pass. The loop counter advances (mod 2^32) exactly on RX passes. |
| `LoraNode.CString` | main/rmds_lora.c:104 | The text `%s` prints is the longest NUL-free prefix of the buffer: it is a prefix, has no NUL, and is followed by a NUL when shorter than the buffer. |
| `LoraNode.DeliverContents` | main/rmds_lora.c:100-103 | After a packet, the buffer holds the driver's bytes at its start, a NUL at `len` when `len > 0` (index at most 255, inside the 256 bytes), and its old bytes elsewhere. |
| `LoraNode.DrainEvents` | main/rmds_lora.c:99-112 | Handling n packets produces exactly 2n events. |
| `LoraNode.DrainEventsAlternate` | main/rmds_lora.c:99-112 | Packet handling alternates a report (echo or length warning) with re-arming receive mode, so the radio is back in receive mode after every packet. |
| `LoraNode.RxEchoIsPacket` | main/rmds_lora.c:100-104 | A NUL-free packet whose length is reported truthfully is echoed exactly as received. |
| `LoraNode.RxEchoBounded` | main/rmds_lora.c:100-104 | Whatever bytes the driver wrote, the echoed text is at most `len` bytes long. |
| `LoraNode.TxText` | main/rmds_lora.c:137-139 | The formatted payload is printable ASCII of length 14 plus the lengths of the two numbers. |
| `LoraNode.SnprintfInto` | main/rmds_lora.c:136-139 | The 64-byte buffer holds the text, cut to 63 bytes if longer, followed by a NUL. |
| `LoraNode.ClampLength` | main/rmds_lora.c:140-141 | The length is clamped into [0, 64]: negative becomes 0, above 64 becomes 64, otherwise unchanged. |
| `LoraNode.SentBytes` | main/rmds_lora.c:134-147 | Nothing is sent for an empty text, the whole text when it fits, and the first 63 bytes plus the NUL otherwise. |
| `LoraNode.TxTextSentWhole` | main/rmds_lora.c:134-147 | For any two 32-bit arguments the text is at most 36 bytes and is sent whole. |
| `LoraNode.NodePayload` | main/rmds_lora.c:134-139 | With node id 1 and 123 ppm, the text is exactly the 18 bytes `NODE=1,METHANE=123`. |
| `LoraNode.CStringOfNulFree` | main/rmds_lora.c:150 | Bytes without a NUL print as themselves. |
| `LoraNode.RxPassShape` | main/rmds_lora.c:82-128 | An RX pass sends nothing, ends with the 10 ms poll delay, and logs the heartbeat exactly when the incremented counter is a multiple of 100. |
| `LoraNode.TxPassSendsText` | main/rmds_lora.c:134-154 | A TX pass hands the whole formatted text to `lora_send_packet` and echoes exactly that text. |
| `LoraNode.StepEventsShape` | main/rmds_lora.c:50-170 | A packet is sent exactly in TX. The heartbeat appears exactly on every hundredth RX pass. INIT calls `lora_init` first and issues the seven configuration calls exactly when it succeeds. ERROR only waits 1000 ms. |
| `LoraNode.TickDiffOfTimes` | main/rmds_lora.c:115-116 | Computed from real times t0 <= t1 seen modulo 2^32, the unsigned difference equals (t1 - t0) mod 2^32 and is never more than t1 - t0. |
| `LoraNode.RxDecisionAcrossWrap` | main/rmds_lora.c:114-125 | When fewer than 2^32 ticks have passed, RX switches to TX exactly when the real elapsed time reaches the period, even if the counter wrapped. |
| `LoraNode.LoopCounterCountsRxPasses` | main/rmds_lora.c:83 | Over any run, the loop counter equals its start value plus the number of RX passes, modulo 2^32. |
| `LoraNode.ConfiguredStaysOperating` | main/rmds_lora.c:79-160 | Once in RX or TX, every later state is RX or TX. |
| `LoraNode.SendsFollowAnchor` | main/rmds_lora.c:114-160 | Every send comes at least one period after the last send or successful init, and sends are pairwise at least one period apart. |
| `LoraNode.TransmissionsSpaced` | main/rmds_lora.c:114-160 | From start-up or after an error, any two packets are sent at least one transmit period apart in real time. |
| `LoraNode.LoraTask.constructor` | main/rmds_lora.c:40-45 | The task starts in INIT with `last_tx_tick` 0, the loop counter 0, a fresh 256-byte receive buffer and an empty log. |
| `LoraNode.LoraTask.ReceivePacket` | main/rmds_lora.c:100 | The driver's bytes are written at the start of the receive buffer, the rest is unchanged, and its length is returned. |
| `LoraNode.LoraTask.DrainPackets` | main/rmds_lora.c:99-112 | After the packet loop, the buffer is `DrainBuffer` of the old one and the log has grown by `DrainEvents`. |
| `LoraNode.LoraTask.InitPass` | main/rmds_lora.c:51-80 | The control state moves as `Next` says, and the log grows by the init call plus, on success, the seven configuration calls. |
| `LoraNode.LoraTask.CountRxPass` | main/rmds_lora.c:83-93 | The counter is incremented modulo 2^32, and the heartbeat is logged exactly when the new value is a multiple of 100. |
| `LoraNode.LoraTask.RxPass` | main/rmds_lora.c:82-129 | The control state moves as `Next` says; the log grows by the RX pass events; the buffer is the drained buffer. |
| `LoraNode.LoraTask.TxPass` | main/rmds_lora.c:131-162 | The control state moves as `Next` says (`last_tx_tick` := now, back to RX), and the log grows by the send and echo of the payload. |
| `LoraNode.LoraTask.ErrorPass` | main/rmds_lora.c:164-169 | The task waits 1000 ms and returns to INIT, with the tick and counter unchanged. |
| `LoraNode.LoraTask.Step` | main/rmds_lora.c:49-171 | One pass moves the control state exactly as `Next` and appends exactly `StepEvents` to the log. In RX the buffer becomes `DrainBuffer` of the packets; otherwise it is unchanged. |

## Left out

- I2C bus set-up, SSD1306 initialisation, panel creation and mirroring, and the frame flushes (`fb_flush_to_panel`, `oled_flush`, `ssd1306_write_*`). These are foreign driver calls; only the page/column command bytes are modelled.
- FreeRTOS: task creation (`rmds_lora_start`, `xTaskCreate`) and the forever-loops of `rmds_oled_task`, `rmds_lora_task` and the rocket `app_main`. One loop iteration of the LoRa task is one `Step`, and runs are sequences of steps. Delays appear only as logged events.
- `pdMS_TO_TICKS`: the tick rate is configuration, so the transmit period is the abstract `periodTicks`.
- The LoRa driver (`lora.h`) is not part of this model. Its results are inputs, and its calls are logged events.
- `LoraNode.LoraTask.Step` requires that the driver writes at most 255 bytes and returns a length of at most 255. This is the `sizeof(rx_buf) - 1` limit it is given; the model does not check it.
- `LoraNode.Next`: one tick reading per pass. The RX heartbeat's separate `xTaskGetTickCount` only feeds a log line. The TX pass's later reading is taken to be the pass's `now`.
- ESP_LOG diagnostics are left out except two. The RX heartbeat is the `RxAlive` event, and the warning for `lora_received()` with a non-positive length is the `RxEmpty` event. The INIT, configuration, "switching to TX", TX progress and ERROR log lines are not modelled. The `printf` echoes of received and sent packets are the `RxEcho` and `TxEcho` events.
- The letter strokes `draw_letter_R`/`M`/`D`/`S`, `draw_rocket` and `draw_starfield` are cosmetic geometry built on the primitives.
- `RmdsOled.FrameCanvas.DrawRmdsPartial` returns which letters it would draw, and where, instead of drawing their strokes. Its buffer contract therefore covers only the cleared and bordered frame.
- `RocketOled.OledCanvas.DrawHudCounter` requires a value in 0..9. Its only caller passes `(frame / 8) % 10` (see `RocketOled.HudDigit`). C's conversion of larger values to `char` is not modelled.
- The drawing loops use unbounded integers. C `int` overflow in expressions such as `x0 + w` is not modelled.
- `main/rmds_wifi.c` (Wi-Fi join and HTTP POST) and `main/power.c` (deep-sleep configuration) are not part of this model.
- `rmds_lora_start_tx_only`, `rmds_lora_start_rx_only` and `rmds_lora_set_payload` are declared in `main/rmds_lora.h`. `main/main.c` calls the first of them. None is defined in `main/rmds_lora.c`, which defines only `rmds_lora_start`, so none is modelled. The serial frame decoder and payload slot they imply are not modelled either.
